# CSV processor, modelled in Dafny

The `CSVProcessor` class reads every `.csv` file of an input folder into a
table. For each file it then:

- validates the table: normalises the column labels, requires `first_name`,
  `last_name` and `age`, prunes other columns, and reports missing names,
  non-integer ages, out-of-range ages and duplicate rows;
- transforms an accepted table: adds a `full_name` column and title-cases
  the labels;
- saves the result to the output folder;
- archives the source file under a timestamped name;
- writes a JSON metadata record for the file.

`process_all_files` runs this loop, catches every per-file exception, and
returns the concatenation of the kept tables.

Three drafts of the class exist. The model covers all of them and marks each
difference with a `Draft` value:

- `Current`: `csv_processor.py`;
- `Second`: `csv_processor2.py`;
- `Earliest`: `csv_processor_old.py`.

Modules:

- `Text`: the string operations used (ASCII case, strip, `title`, `isdigit`,
  decimal rendering, string order).
- `Tables`: cells, tables, and the `Frame` class for a pandas DataFrame that
  is changed in place. It also covers projection, `drop_duplicates`/
  `duplicated`, and `pd.concat`.
- `Drafts`: the three drafts and the behaviour each has.
- `Validation`: `validate_data`. The `Validate` function gives the outcome and
  the caller's table afterwards. The `ValidateData` and `InspectFrame`
  methods do the same work in place on frames.
- `Transform`: `process_data`. `Transformed` is the specification, and the
  `ProcessData` method changes the frame in place.
- `Naming`: timestamps and their two formats, plus the POSIX `os.path`
  operations (`join`, `basename`, `splitext`). It also builds the archive,
  output and metadata paths.
- `Archive`: the file system as a class, holding a map from path to content
  and a set of directories. It covers `shutil.move` and the move-and-rename
  step with or without its checks.
- `Pipeline`: the `CsvProcessor` class and its methods. Each file's pass is
  the `Handle` function, and the loop is the `Run` fold over the listed paths.

Where the code and its documentation disagree, the model follows the code:

- `missing_required_columns` is built as `list(set)`, so its order is
  unspecified. The model uses a set.
- `extra_columns` is computed after pruning, so it is always empty.
- Labels are lower-cased and blanks become underscores before stripping, so
  a padded label such as `" First Name "` becomes `"_first_name_"`.
- In `csv_processor.py`, a rejected file is not moved to an error folder. The
  attribute `error_dir` does not exist, so the pass raises.
- In `csv_processor.py`, the run never returns. The method
  `save_metadata_collection` does not exist, so the call after the loop raises.
- Duplicates are dropped on the caller's table only when no column was
  pruned. Pruning rebinds the local name to a new frame.

## Model

| member | source | states |
|---|---|---|
| Text.Strip | csv_processor.py:117 | `strip()` gives the part of the label that starts at some position with only whitespace before it and only whitespace after it, and that neither starts nor ends with whitespace: the longest such infix. |
| Text.StripLeft | csv_processor.py:117 | The leading part dropped is all whitespace, what is left is a suffix of the label, and it does not start with whitespace. |
| Text.StripRight | csv_processor.py:117 | The trailing part dropped is all whitespace, what is left is a prefix, and it does not end with whitespace. |
| Text.Lower | csv_processor.py:117 | `lower()` maps each character by itself. Its properties are stated by `Text.LowerFacts`. |
| Text.LowerFacts | csv_processor.py:117 | Lower-casing keeps the length, leaves no upper-case letter, changes only upper-case letters, and doing it twice is doing it once. |
| Text.Replace | csv_processor.py:117 | `replace` of one character by another, position by position. Its properties are stated by `Text.ReplaceRoundTrip`. |
| Text.ReplaceRoundTrip | csv_processor.py:117 | Replacing one character by another keeps the length and leaves none of the first behind. When the second did not occur, replacing back restores the string. |
| Text.Title | csv_processor.py:70 | `title()` keeps the label's length. |
| Text.TitleAt | csv_processor.py:70 | A letter after a non-letter (or first) becomes upper case. A letter after a letter becomes lower case. Any other character is unchanged, and each position keeps its letter up to case. |
| Text.TitleKeepsLetters | csv_processor.py:70 | Lower-casing a title-cased label gives the lower-cased original. |
| Text.NatString | csv_processor.py:138 | A non-negative integer renders as decimal digits with no leading zero. |
| Text.IntString | csv_processor.py:138-141 | An integer's string form is all digits exactly when the integer is non-negative. A negative one starts with '-'. |
| Text.IsDigits | csv_processor.py:138 | `isdigit()`: a non-empty string of decimal digits. What it says of an age is stated by `Validation.DigitAgeCases` and `Text.IntString`. |
| Text.EndsWith | csv_processor.py:250 | `endswith`: the string's last characters are the suffix. Which entries pass is stated by `Pipeline.CsvPathsExact`. |
| Text.LexLess | csv_processor.py:192-193 | Python's string `<`. Its order properties are stated by `Text.LexTotal` and `Text.LexTransitive`. |
| Text.LexTotal | csv_processor.py:192-193 | Of two different strings exactly one is less than the other, and a string is never less than itself. |
| Text.LexTransitive | csv_processor.py:192-193 | String order is transitive. |
| Tables.Frame.constructor | csv_processor.py:266 | A new frame holds exactly the parsed table's labels and rows. |
| Tables.Column | csv_processor.py:133 | A column has one cell per row. |
| Tables.Project | csv_processor.py:128 | Selecting columns keeps every row. It keeps exactly the labels in the selected set, and distinct labels stay distinct. |
| Tables.ProjectColumn | csv_processor.py:128 | A kept column reads the same after selection. |
| Tables.Dedup | csv_processor.py:150 | `drop_duplicates` keeps the same set of rows, now pairwise distinct, and never more of them. |
| Tables.DedupRemovesCounted | csv_processor.py:148-151 | Rows kept plus rows flagged by `duplicated()` equal the rows before. |
| Tables.CountDuplicatesZero | csv_processor.py:148 | No row is flagged as a duplicate exactly when the rows are pairwise distinct. |
| Tables.DedupDistinct | csv_processor.py:150 | Dropping duplicates from distinct rows changes nothing. |
| Tables.DedupKeepsFirstOrder | csv_processor.py:150 | The kept rows keep the order of their first occurrences. |
| Tables.CountDuplicates | csv_processor.py:148-149 | `duplicated().sum()`: the rows equal to an earlier row. Stated by `Tables.DedupRemovesCounted` and `Tables.CountDuplicatesZero`. |
| Tables.Union | csv_processor.py:309 | The combined labels are the union of both lists, extend the first list, and stay distinct. |
| Tables.Concat | csv_processor.py:309 | The concatenation is rectangular and has every row of every table. Each table's labels are among its labels. The exact labels and the place of every cell are stated by `Tables.AllColumnsExact` and `Tables.ConcatCell`. |
| Tables.AllColumnsExact | csv_processor.py:309 | The combined labels are distinct, and a label is among them exactly when some table has it. |
| Tables.ConcatCell | csv_processor.py:309 | Row `j` of table `k` is row `TotalRows(frames[..k]) + j` of the concatenation: after all rows of the earlier tables, in order. Under each combined label it holds that table's cell, or a missing cell where the table has no such column. |
| Tables.ConcatSingle | csv_processor2.py:211 | Concatenating one table with distinct labels gives that table back. |
| Validation.Normalize | csv_processor.py:116-118 | A normalised label has no upper-case letter and no blank, and is no longer than the original. Its exact value is stated by `Validation.NormalizeExact` and `Validation.NormalizeKeepsNormal`. |
| Validation.NormalizeExact | csv_processor.py:116-118 | A label whose only whitespace is blanks normalises to its lower-cased form with every blank turned into `_`. |
| Validation.NormalizeKeepsNormal | csv_processor.py:116-118 | A label that is already lower case with no whitespace normalises to itself. |
| Validation.NormalizeColumns | csv_processor.py:116-118 | Every label is normalised on its own, in place. Stated by `Validation.NormalizedLabels`. |
| Validation.NormalizedLabels | csv_processor.py:116-118 | Every normalised label has no upper-case letter and no blank. |
| Validation.PaddedLabelMatchesNothing | csv_processor.py:116-119 | A label that starts with a blank normalises to one that starts with `_`, so it is none of the required labels. |
| Validation.DigitAgeCases | csv_processor.py:138 | An integer age passes `isdigit` exactly when it is non-negative. An empty cell (`"nan"`) never passes. |
| Validation.NonDigitAges | csv_processor.py:138-141 | An age is listed exactly when its string form fails `isdigit`, and the list is never longer than the column. Order and repeats are stated by `Validation.NonDigitAgesAppend` and `Validation.NonDigitAgesOne`. |
| Validation.NonDigitAgesAppend | csv_processor.py:138-141 | The list for two stretches of rows is the list for the first followed by the list for the second, so the ages keep row order with repeats. |
| Validation.NonDigitAgesOne | csv_processor.py:138-141 | One row contributes its age exactly when that age fails `isdigit`. |
| Validation.AgeText | csv_processor.py:138 | `astype(str)` of an age cell: `nan` when empty. Stated by `Validation.DigitAgeCases`. |
| Validation.Outliers | csv_processor.py:143-146 | A value is listed exactly when it is an integer age below 0 or above 120, and the list is never longer than the column. Order and repeats are stated by `Validation.OutliersAppend` and `Validation.OutliersOne`. |
| Validation.OutliersAppend | csv_processor.py:143-146 | The list for two stretches of rows is the list for the first followed by the list for the second. |
| Validation.OutliersOne | csv_processor.py:143-146 | One row contributes its age exactly when it is an integer outside 0..120. |
| Validation.CountMissing | csv_processor.py:133-136 | `isnull().sum()` of a column: its empty cells. Stated by `Validation.InspectEntries`. |
| Validation.Validate | csv_processor.py:87-153 | The caller's labels become the normalised labels. Its table stays rectangular and never gains rows. An accepted table has the three required columns. |
| Validation.ValidateData | csv_processor.py:115-131 | The in-place validation returns the outcome of `Validate` and leaves the caller's frame as `Validate` says. |
| Validation.InspectFrame | csv_processor.py:133-153 | The checks on the working frame return `Inspect`'s outcome and keep its labels. Its rows are deduplicated exactly when the checks complete and find duplicates. |
| Validation.RejectedExactlyWithoutRequired | csv_processor.py:119-125 | A table is rejected exactly when a required label is missing. The report then holds only the non-empty set of missing labels, and the rows are untouched. |
| Validation.ExtraColumnsAlwaysEmpty | csv_processor.py:127-131 | After pruning, `extra_columns` is always present-but-empty or absent. |
| Validation.WorkingColumn | csv_processor.py:127-128 | Each required column reads the same in the working frame as in the renamed one. |
| Validation.InspectEntries | csv_processor.py:133-153 | The checks give one entry per issue kind. `missing_values` is present iff a name cell is empty, and then counts both columns. `non_integer_age` is absent when every age passes `isdigit` and otherwise is exactly `NonDigitAges` of the column. `age_outliers` is absent when no integer age is outside 0..120 and otherwise is exactly `Outliers` of the column. `duplicates` is present iff rows repeat. A text age raises instead. |
| Validation.InspectNeverRejects | csv_processor.py:133-153 | The value checks never reject a table that has the required columns: they raise or accept it. |
| Validation.Inspect | csv_processor.py:133-153 | The value checks on the working table. Stated by `Validation.InspectEntries` and `Validation.InspectNeverRejects`. |
| Validation.Working | csv_processor.py:127-128 | The working table is rectangular, keeps every row, and still has the required labels. |
| Validation.AcceptedReport | csv_processor.py:133-146 | For every table that has the required labels, the same entries, including the exact `non_integer_age` and `age_outliers` lists, are stated against the caller's renamed columns. |
| Validation.NegativeAgeInBothLists | csv_processor.py:138-146 | A negative age appears both as non-integer and as an outlier. An empty age is listed as non-integer. |
| Validation.PruneKeepsRequired | csv_processor.py:127-128 | Pruning leaves exactly the three required labels with unchanged columns. |
| Validation.PrunedLabels | csv_processor.py:119-128 | Pruning leaves exactly three labels, the required ones. |
| Validation.DuplicatesCountRemoved | csv_processor.py:148-151 | `duplicates` is present iff rows repeat, and then it equals the number of rows the drop removes, which is positive. |
| Validation.DuplicatesZeroAfterDrop | csv_processor2.py:116-118 | In the older drafts, a table with repeated rows has `duplicates` recorded as 0. |
| Validation.DropReachesCallerOnlyWithoutPruning | csv_processor.py:127-150 | The caller's rows end up deduplicated exactly when the table is accepted and nothing was pruned. Otherwise they are the rows read. |
| Validation.EmptyTableIsClean | csv_processor.py:115-153 | An empty table with exactly the required labels is accepted with an empty report. |
| Transform.FullNames | csv_processor.py:69 | A successful concatenation yields one full name per row. |
| Transform.FullNamesExact | csv_processor.py:69 | The concatenation raises exactly when some row pairs an integer first name, or a text first name with an integer last name. Otherwise each row holds its joined name. |
| Transform.FullNameCell | csv_processor.py:69 | One row's `first + " " + last`. Stated by `Transform.FullNamesExact`. |
| Transform.SetColumn | csv_processor.py:69 | Assigning a column replaces an existing label in place or appends a new one, and keeps every row. |
| Transform.SetColumnReads | csv_processor.py:69 | The assigned column reads back as assigned, and every other column is unchanged. |
| Transform.Relabel | csv_processor.py:70 | Relabelling keeps the number of labels. |
| Transform.DisplayLabel | csv_processor.py:70 | `replace("_", " ").title()` of one label. Stated by `Transform.DisplayLabelInjective` and `Transform.StandardLabels`. |
| Transform.DisplayLabelInjective | csv_processor.py:70 | Two normalised labels with the same display label are the same label. |
| Transform.RelabelPositions | csv_processor.py:70 | Distinct normalised labels keep distinct display labels, each at its original position. |
| Transform.StandardLabels | csv_processor.py:70 | `first_name`, `last_name`, `age` and `full_name` display as `First Name`, `Last Name`, `Age` and `Full Name`. |
| Transform.Transformed | csv_processor.py:54-71 | A processed table is rectangular and has as many rows as its input. |
| Transform.ProcessData | csv_processor.py:68-70 | The in-place processing succeeds exactly when `Transformed` does. On success the frame becomes `Transformed`'s table, and otherwise it is unchanged. |
| Transform.TransformedExact | csv_processor.py:68-70 | Processing fails iff a row's names clash. Otherwise it keeps the rows and labels each column with its display label. `Full Name` holds the joined names, and every other column keeps its cells. |
| Transform.TransformedDistinct | csv_processor.py:69-70 | Processing a table with distinct lower-case labels gives distinct labels. |
| Naming.Stamp | csv_processor.py:192 | The archive timestamp has 14 characters. |
| Naming.StampDigits | csv_processor.py:192 | Every character of the archive timestamp is a decimal digit. |
| Naming.DisplayTime | csv_processor.py:294 | The record's timestamp is 19 characters. |
| Naming.DisplayTimeMatchesStamp | csv_processor.py:294 | The record's time shows the same fields as the archive stamp, separated by '-', ' ' and ':'. |
| Naming.StampOrder | csv_processor.py:192-193 | Stamps of valid times compare as strings exactly as the times compare, and are equal only for equal times. |
| Naming.Join | csv_processor.py:195 | `os.path.join` of two parts: an absolute name replaces the folder, otherwise the name follows the folder after one slash. The result is never shorter than the name. Stated further by `Naming.BasenameOfJoin`. |
| Naming.Basename | csv_processor.py:190 | `os.path.basename`: what follows the last slash. Stated by `Naming.BasenameShape` and `Naming.BasenameOfSuffix`. |
| Naming.BasenameShape | csv_processor.py:190 | A base name has no slash, is a suffix of the path, and follows a slash when shorter than the path. |
| Naming.BasenameOfSuffix | csv_processor.py:190 | A slash-free suffix after the last slash is the base name. |
| Naming.BasenameOfJoin | csv_processor.py:190-195 | The base name of a folder joined with a slash-free name is that name. |
| Naming.SplitextParts | csv_processor.py:224 | The stem and the extension rebuild the name. The extension is empty or one dot followed by no other dot, and leading dots never start an extension. |
| Naming.Stem | csv_processor.py:224 | The root of `os.path.splitext`. Stated by `Naming.SplitextParts`. |
| Naming.Extension | csv_processor.py:224 | The extension of `os.path.splitext`. Stated by `Naming.SplitextParts`. |
| Naming.StemOfCsv | csv_processor.py:224 | The stem of `name.csv`, for a dot-free name, is `name`. |
| Naming.ArchiveName | csv_processor.py:192-193 | `<stamp>_<basename>`. Stated by `Naming.ArchiveNameParts` and `Naming.ArchiveOrder`. |
| Naming.ArchivePath | csv_processor.py:195 | The archive name joined onto the destination folder. Stated by `Naming.ArchiveNameParts`. |
| Naming.OutputPath | csv_processor.py:84-85 | The source's base name joined onto the output folder. Stated by `Naming.OutputPathName`. |
| Naming.OutputPathName | csv_processor.py:84-85 | The processed table is saved under the source file's own base name. |
| Naming.MetadataPath | csv_processor.py:223-225 | `<stem>_metadata.json` joined onto the metadata folder. Stated by `Naming.MetadataPathOfCsv` and `Naming.MetadataPathOfHiddenFile`. |
| Naming.TrimSlashes | csv_processor2.py:174 | What is dropped is all slashes, what is left is a prefix, and it does not end with a slash. |
| Naming.GlobFolder | csv_processor2.py:174 | The folder `glob` lists for the input folder's pattern. Stated by `Naming.GlobFolderShape`. |
| Naming.GlobFolderShape | csv_processor2.py:174 | The listed folder is the input folder without its trailing slashes when it has another character, and otherwise the input folder with one more slash. |
| Naming.GlobJoin | csv_processor2.py:174 | A name `glob` yields is the trimmed folder, one slash and the name, so a folder written with a trailing slash gives the same paths as without one. |
| Naming.ArchiveNameParts | csv_processor.py:190-195 | The archived file's name is the 14-digit stamp, '_' and the source's base name. It is the base name of the returned path. |
| Naming.ArchiveOrder | csv_processor.py:192-195 | Archive names of different valid times differ and sort chronologically. |
| Naming.MetadataPathOfCsv | csv_processor.py:223-225 | `folder/name.csv` gets its record at `metadata_dir/name_metadata.json`. |
| Naming.MetadataPathOfHiddenFile | csv_processor.py:223-225 | A hidden file `.name` with no further dot has no extension, so its record is `.name_metadata.json`. A file named `.csv` gets `.csv_metadata.json`. |
| Archive.ShutilMove | csv_processor.py:199-204 | A failed move changes nothing. A move goes through only when the source exists and the environment allows it. A move onto a directory that already holds a file or directory of the source's base name fails. |
| Archive.Landing | csv_processor.py:200 | Where `shutil.move` puts the file. Stated by `Archive.LandingName`. |
| Archive.LandingName | csv_processor.py:200 | Moved onto a directory, the file keeps its base name inside it. Moved onto anything else, it lands at the destination itself. |
| Archive.ShutilMoveConsistent | csv_processor.py:200 | A move never puts a file where a directory is. |
| Archive.ShutilMoveEffect | csv_processor.py:199-204 | A move that goes through puts the content at the landing path and removes the source unless it landed there. Every other path is left alone. |
| Archive.ArchiveIsElsewhere | csv_processor.py:190-195 | The archive path is never the source path. |
| Archive.MissingSourceChangesNothing | csv_processor.py:184-185 | In every draft, a missing source raises not-found and changes nothing. |
| Archive.FailedMoveChangesNothing | csv_processor.py:199-204 | A refused move raises a permission error and any other failure raises a generic error. Neither changes anything. |
| Archive.Relocate | csv_processor.py:183-210 | A successful relocation returns the destination, and with checks the destination then holds a file. Any failure other than an unconfirmed move changes nothing. An unconfirmed move happens only with checks, and then no file is at the destination. |
| Archive.LandingInside | csv_processor.py:200 | Moving onto an existing directory lands strictly inside it. |
| Archive.CheckedMoveSucceeds | csv_processor.py:183-210 | A confirmed move to a path that is not the source, and does not land back on itself, returns that path. The path now holds the source's content, the source is gone, and nothing else changed. |
| Archive.UncheckedMoveIntoDirectory | csv_processor2.py:139-145 | Without checks, moving onto an existing directory whose landing spot is free returns a path with no file at it. The source is gone. |
| Archive.CheckedMoveIntoDirectory | csv_processor.py:199-208 | With checks, that move raises as unconfirmed after the source has already left. |
| Archive.FileSystem.Read | csv_processor.py:259 | Reading succeeds exactly for an existing file and yields its content. |
| Archive.FileSystem.Write | csv_processor.py:227-228 | A write succeeds exactly when allowed and the path is not a directory. It then sets that one path, and otherwise changes nothing. No path becomes both a file and a directory. |
| Archive.FileSystem.Move | csv_processor.py:200 | The in-place move ends in the state and error `ShutilMove` gives. No path becomes both a file and a directory. |
| Pipeline.Record | csv_processor.py:292-300 | The record is built whether or not its file can be written. The result is passed through. |
| Pipeline.Archived | csv_processor.py:277-300 | Archiving and recording pass the kept table through unchanged. |
| Pipeline.Accepted | csv_processor.py:271-280 | The table kept for an accepted file is its processed table. |
| Pipeline.Checked | csv_processor.py:269-283 | A kept table is rectangular. |
| Pipeline.Handle | csv_processor.py:256-304 | Each pass keeps only rectangular tables. |
| Pipeline.Absorb | csv_processor.py:275-298 | Each pass adds one logged fate. |
| Pipeline.RunFrom | csv_processor.py:255-304 | The loop keeps only rectangular tables, so they can be concatenated. |
| Pipeline.Run | csv_processor.py:252-304 | The same from empty lists. |
| Pipeline.Finish | csv_processor.py:306-309 | What follows the loop. Stated by `Pipeline.Endings`. |
| Pipeline.CsvPaths | csv_processor.py:247-251 | At most one path per listed entry. |
| Pipeline.Selected | csv_processor.py:247-251 | Which listed entries the loop visits: names ending in `.csv`, and for `glob` not hidden. Stated by `Pipeline.CsvPathsExact`. |
| Pipeline.EntryPath | csv_processor.py:248 | The path of a visited entry: `os.path.join` onto the input folder, or for `glob` onto the folder it listed. Stated by `Naming.GlobJoin` and `Pipeline.CsvPathsExact`. |
| Pipeline.CsvProcessor.constructor | csv_processor.py:20-52 | The processor keeps the four folders it is given. |
| Pipeline.CsvProcessor.SaveData | csv_processor.py:73-85 | `save_data` writes the rendered table at `output_dir/<basename>` exactly when the write is allowed, and changes nothing otherwise. |
| Pipeline.CsvProcessor.SaveMetadata | csv_processor.py:212-228 | `save_metadata` writes the rendered record at `metadata_dir/<stem>_metadata.json` exactly when the write is allowed, and changes nothing otherwise. |
| Pipeline.CsvProcessor.MoveAndRenameFile | csv_processor.py:155-210 | The method ends in the state and result `Relocate` gives, with the checks only in `csv_processor.py`. |
| Pipeline.CsvProcessor.ProcessFile | csv_processor.py:256-304 | One pass through the loop body ends in the files, result, record and fate that `Handle` gives. |
| Pipeline.CsvProcessor.ProcessAllFiles | csv_processor.py:230-309 | The run leaves the file system as `Run` over the listed paths says, and ends as `Finish` says. |
| Pipeline.HandleFates | csv_processor.py:256-304 | An exception before any write leaves files, results and records untouched. A record exists exactly when the move went through. A failed move leaves no record. |
| Pipeline.HandleResult | csv_processor.py:269-275 | A kept table comes only from a parsed, accepted file. It is that file's processed table, with distinct labels. |
| Pipeline.CheckedResult | csv_processor.py:269-280 | A table kept from a parsed file is its validated, processed table, and it has distinct labels. |
| Pipeline.RunFromShape | csv_processor.py:255-304 | The loop logs one fate per path and keeps at most one table per path, appending after the earlier ones. Without collection nothing is collected. |
| Pipeline.RunShape | csv_processor.py:255-304 | The same, for a run from empty lists. |
| Pipeline.RunFromCollected | csv_processor.py:292-300 | `csv_processor.py` collects one record per pass whose move went through, even if its metadata write fails. The other drafts collect none. |
| Pipeline.CollectedPerRecordedFile | csv_processor.py:298 | The same, for a whole run. |
| Pipeline.Endings | csv_processor.py:306-309 | `csv_processor.py` always raises after the loop. The older drafts raise exactly when no table was kept, in particular for an empty listing. |
| Pipeline.SingleAcceptedReturnsItsTable | csv_processor2.py:211 | When one listed file is kept, the older drafts return exactly its processed table. |
| Pipeline.CurrentRejectedStays | csv_processor.py:281-283 | In `csv_processor.py`, a file without the required columns stays in place, and gets neither a result nor a record. |
| Pipeline.DraftsRejectedArchived | csv_processor2.py:194-206 | In the older drafts, such a file is archived in `processed_dir`. Its record names the archive path and the missing labels, and counts the rows read. |
| Pipeline.ArchivedClean | csv_processor.py:277-300 | When the move and the metadata write go through, the source moves to its archive path and the record is written at its metadata path. |
| Pipeline.AcceptedClean | csv_processor.py:270-300 | With every write allowed, an accepted file is saved, kept, archived and recorded. The record counts the kept rows. |
| Pipeline.AcceptedMoveFailureKeepsResult | csv_processor.py:271-280 | When the archive move raises, the saved, processed table is still kept and no record is made. |
| Pipeline.CsvPathsExact | csv_processor.py:247-251 | Exactly the selected entries become paths, and there are none exactly when no entry is selected. |

## Left out

- Reading files goes through an oracle, because chardet, CSV parsing and dtype inference are outside the model. The oracle either parses a file into a table or fails. Rendering a table as CSV and a record as JSON are oracles too.
- A column that pandas reads as all-empty floats is out of scope. Concatenating such a name column with text raises in pandas, but the model treats each empty cell on its own.
- Tables whose normalised labels collide are out of scope. They are excluded by `Admissible`, because pandas semantics for duplicate labels are not modelled.
- The constructor's folder checks and `os.makedirs` calls are left out. So is the `makedirs` in the move.
- The clock is left out. Each file's two clock readings are parameters, and years outside 1000..9999 are not modelled.
- Logging is left out.
- Each write and move is atomic: one that fails changes nothing.
- Upper/lower case and digits are ASCII only. Whitespace is the set Python's `str.isspace()` accepts.
- The directory listing and the glob result are given as a sequence of entry names. Their order and glob metacharacters in folder names are left out.
- The glob and the listing are modelled as seeing only files, not sub-folders.
- `dag.py` and the repository's other scripts are not part of this model.
- Pipeline.CsvPaths: its contract states only a size bound. The exact listing is stated by `Pipeline.CsvPathsExact`.
- Pipeline.Absorb: its contract states only that one fate is logged. The collected records are stated by `Pipeline.RunFromCollected`.
- Naming.Stamp: its contract states only the length. That every character is a digit is stated by `Naming.StampDigits`, and the order by `Naming.StampOrder`.
- Archive.ShutilMove: its contract states only when a move fails and that a failure changes nothing. The effect of a move that goes through is stated by `Archive.ShutilMoveEffect`.
- Tables.Concat: its contract states only the row count and that each table's labels are kept. The exact labels are stated by `Tables.AllColumnsExact`, and the place of every cell by `Tables.ConcatCell`.
- Validation.NonDigitAges: its contract states membership and a length bound. Order and repeats are stated by `Validation.NonDigitAgesAppend` and `Validation.NonDigitAgesOne`.
- Validation.Outliers: its contract states membership and a length bound. Order and repeats are stated by `Validation.OutliersAppend` and `Validation.OutliersOne`.

## Findings

| source | as written | input that shows it | evidently intended | confidence | as-written member | corrected member |
|---|---|---|---|---|---|---|
| csv_processor2.py:116-118, csv_processor_old.py:48-50 | Duplicates are counted after `drop_duplicates`, so the `duplicates` entry is always 0. | A table with the required columns whose two rows are identical: the report says `duplicates: 0`. | Record the number of rows the drop removes, as `csv_processor.py` does. | not executed | Validation.DuplicatesZeroAfterDrop | Validation.DuplicatesCountRemoved |
