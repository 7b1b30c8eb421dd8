# scf-tools in Dafny

A model of the decision rules inside scf-tools, the scripts that fetch, merge and relabel
the summary extracts of the Survey of Consumer Finances. The tools it models are:

- **The two fetchers** (`fedsurvey/scf/download.py`, `scf_tools/download.py`). Each has a
  fixed survey-year sequence, a file-type table, archive names and URLs, and per-year
  skip-if-exists and skip-on-error rules. The disk is a `Disk` object holding a set of
  directories and a map from path to contents. The network is a session oracle and the zip
  decoder is an oracle.
- **The merger** (`scf_tools/merge.py`). It selects the files named "four digits +
  extension" and reads them in sorted order. Each row is tagged with the year taken from the
  file's stem. A read that raises ValueError is retried once and a read that raises anything
  else skips its file. The tables read are concatenated under a fresh index, and the output
  file and writer are then chosen. The directory listing, the readers and the writers are
  oracles, and a table is a sequence of rows.
- **The two labelling scripts** (`fedsurvey/scf/process.py`, `scf_tools/process.py`). They
  share the module `Labelling`, which defines:
  - eight code-to-label lookups;
  - the 5-year age bins;
  - the ratio, scale and per-year decile columns;
  - the substring allowlists that choose the output columns.

  `FedsurveyProcess` assembles these rules as the fedsurvey script does: one expression, plus a
  full and a minimal filter. `ScfToolsProcess` assembles them as the scf_tools script does.
  That script builds `df_new` by a loop and by assignments, which the model writes as methods
  proved against a specification function. It then clears infinities in place and applies one
  filter.

A table in the labelling scripts is a sequence of named columns, all of the same height. A
cell is a finite number (`real`), a signed infinity, text, or missing (NaN).

Modules:
- `Wrappers`, `PyRange` (Python `range`), `Decimal` (`str` of an integer, and its parse).
- `Strings` (substring search, Python string order, `sorted`).
- `Cells`, `FileStore`, `Http`.
- `FedsurveyDownload`, `ScfToolsDownload`, `Merge`, `Labelling`, `FedsurveyProcess`,
  `ScfToolsProcess`.

Four behaviours of the code are worth noting:
- `download_year` creates its directories before it validates the year and the type
  (`FedsurveyDownload.DownloadYear`). Validation is therefore not "before any I/O".
- In `scf_tools/download.py` a failed request is reported and the loop goes on to the next
  year. It does not end the run; only the fedsurvey fetcher aborts, with SystemExit.
- In `merge_files`, an exception raised by the retry read is not a skipped file: it escapes
  the loop (`Merge.RetryPolicy`, `Merge.ReadAllFailureSticky`).
- Only `pd.read_stata` accepts `convert_categoricals`. For csv and sas input the retry
  raises TypeError, so a first-read ValueError always escapes `merge_files`
  (`Merge.NoRetryOutsideStata`).

## Model

| member | source | states |
|---|---|---|
| PyRange.RangeMembership | src/fedsurvey/scf/download.py:15 | `range(start, stop, step)` holds x exactly when start <= x < stop and x - start is a multiple of step |
| Decimal.ParseDigitsInverse | src/fedsurvey/scf/download.py:49 | the decimal text of a year reads back as that year |
| Decimal.FourDigits | src/fedsurvey/scf/download.py:49 | every year from 1000 to 9999 prints as exactly four digits |
| FedsurveyDownload.YearsInScfExactly | src/fedsurvey/scf/download.py:12-15 | a year is valid exactly when it lies in 1989..2022 and is 1989 plus a multiple of 3 |
| FedsurveyDownload.YearRangeListed | src/fedsurvey/scf/download.py:12-15 | the range lists 1989, 1992, ..., 2022 in that order |
| FedsurveyDownload.TwelveYears | src/fedsurvey/scf/download.py:12-15 | there are twelve valid years, the first 1989 and the last 2022 |
| FedsurveyDownload.CheckYearFileType | src/fedsurvey/scf/download.py:27-40 | validation passes exactly for a known type with a survey year; an unknown type is reported as such, and a known type with a bad year as a bad year |
| FedsurveyDownload.TypeCheckedBeforeYear | src/fedsurvey/scf/download.py:27-33 | an unknown type is reported even when the year is also invalid |
| FedsurveyDownload.ArchiveNameExample | src/fedsurvey/scf/download.py:49-50 | stata 2019 gives "scfp2019s.zip" at the Federal Reserve base URL |
| FedsurveyDownload.ArchiveNamesDistinct | src/fedsurvey/scf/download.py:49-51 | two valid (year, type) pairs with the same archive name are the same pair |
| FedsurveyDownload.SaveStep | src/fedsurvey/scf/download.py:43-69 | a failure writes nothing; an archive already present returns its name with no request and no write; otherwise an unknown type, a missing session, a failed request or a 4xx/5xx status (`raise_for_status`) fails with nothing written, and any other response to the archive's URL is written at the archive path and returns "scfp" + year + ending |
| FedsurveyDownload.SaveIdempotent | src/fedsurvey/scf/download.py:54-69 | a second save after a successful one returns the same name and leaves the disk alone, whatever the session does |
| FedsurveyDownload.UnzipStep | src/fedsurvey/scf/download.py:72-88 | an existing extracted file means no change; otherwise a missing archive is the only failure, an archive that decodes has its members added under `_raw`, and a bad zip passes with the disk unchanged |
| FedsurveyDownload.YearStep | src/fedsurvey/scf/download.py:97-108 | a validation failure is returned with no file touched; after validation a failed save is returned with its disk, and a successful save is followed by an extraction that cannot fail, whose disk is the result; the only failures after validation are the missing session and the failed download |
| FedsurveyDownload.MakeDirs | src/fedsurvey/scf/download.py:91-94 | the save, `_raw` and `_zip` directories are added and no file changes |
| FedsurveyDownload.SaveYearZip | src/fedsurvey/scf/download.py:43-69 | the method's result and new disk are those of SaveStep, with the directories unchanged |
| FedsurveyDownload.UnzipFile | src/fedsurvey/scf/download.py:72-88 | the method's result and new disk are those of UnzipStep |
| FedsurveyDownload.DownloadYear | src/fedsurvey/scf/download.py:97-108 | the directories are made first, then the result and the files are those of YearStep |
| FedsurveyDownload.Run | src/fedsurvey/scf/download.py:115-117 | the loop over the years never removes a file |
| FedsurveyDownload.RunCoversEveryYear | src/fedsurvey/scf/download.py:111-117 | a run that finishes has every given year's archive on disk |
| FedsurveyDownload.RunRejectsFileType | src/fedsurvey/scf/download.py:27-33 | an unknown type stops the run at its first year with nothing written |
| FedsurveyDownload.RunFailsOnlyOnDownload | src/fedsurvey/scf/download.py:58-63 | over survey years with a known type, a run ends early only through a failed download (SystemExit) |
| FedsurveyDownload.AllYearsOutcome | src/fedsurvey/scf/download.py:111-117 | over any order of the twelve years: an unknown type fails at once with nothing written, a finished run holds all twelve archives, and any other failure is a failed download |
| FedsurveyDownload.DownloadAllYears | src/fedsurvey/scf/download.py:111-117 | the directories are made and the loop's result and files are those of Run over the set's iteration order |
| FileStore.Placed | src/scf_tools/download.py:56-57 | `extractall(dir)` puts each member at dir/member with its contents, and nothing else |
| FileStore.Disk.MakeDir | src/scf_tools/download.py:24-26 | `mkdir(exist_ok=True)` adds the directory and leaves the files |
| FileStore.Disk.WriteFile | src/scf_tools/download.py:45-46 | writing replaces or adds exactly that path's contents |
| FileStore.Disk.ExtractAll | src/scf_tools/download.py:56-57 | extraction adds the placed members over the existing files |
| ScfToolsDownload.YearsAreSurveyYears | src/scf_tools/download.py:9 | there are twelve year strings, each four digits, the i-th reading 1989 + 3i (so ascending) |
| ScfToolsDownload.UrlEndsWithLocalName | src/scf_tools/download.py:8-33 | the URL is the files base followed by the local archive name "scfp" + year + ending |
| ScfToolsDownload.RawAndSourceDisjoint | src/scf_tools/download.py:22-23 | no extracted member path in data/_raw is an archive path in data/_source |
| ScfToolsDownload.ExistingArchiveSkipped | src/scf_tools/download.py:36-38 | with the archive present the step neither fetches nor extracts: the disk is unchanged whatever the network and zip decoder do |
| ScfToolsDownload.ResponseSavedWhateverStatus | src/scf_tools/download.py:42-52 | a failed request leaves the disk as it was; any response, whatever its status, is saved under the archive name, and its members are then extracted into data/_raw when the body decodes, while a bad zip leaves just the saved archive |
| ScfToolsDownload.StepKeepsArchives | src/scf_tools/download.py:42-64 | a step never removes a file and never changes an archive already in data/_source |
| ScfToolsDownload.FetchArchives | src/scf_tools/download.py:29-64 | after the loop every year whose archive was present or whose request returned has its archive; earlier archives keep their contents |
| ScfToolsDownload.DownloadData | src/scf_tools/download.py:13-64 | an unknown type is refused with no directory made and no file written; otherwise the three directories are made and the files are those of the loop over the twelve years |
| Strings.Sort | src/scf_tools/merge.py:27 | `sorted` gives an ascending permutation of its input |
| Strings.SortIgnoresListingOrder | src/scf_tools/merge.py:27 | two permutations of the same names sort to the same sequence |
| Merge.Matching | src/scf_tools/merge.py:27 | the glob keeps exactly the listed names ending in four digits and the extension, each as often as listed |
| Merge.SelectedIsSortedMatch | src/scf_tools/merge.py:27 | the selection is sorted and holds exactly the matching names |
| Merge.SelectionIgnoresListingOrder | src/scf_tools/merge.py:27 | the selection does not depend on the order in which the directory is listed |
| Merge.SasPatternMissesSasFiles | src/scf_tools/merge.py:7-27 | the sas pattern has no extension, so "rscfp2019.sas7bdat" is not selected while "rscfp2019.dta" is under stata |
| Merge.EveryInputFormatHasReader | src/scf_tools/merge.py:7-38 | the formats `from_end` accepts are exactly those with a reader, so "Unsupported input format" cannot happen |
| Merge.LastDot | src/scf_tools/merge.py:44 | the position found is the last dot of the name, and there is none when None |
| Merge.YearTagIsMatchedDigits | src/scf_tools/merge.py:44 | for .dta and .csv files the year tag is exactly the four matched digits |
| Merge.SasYearTag | src/scf_tools/merge.py:44 | a dot-free name selected by the sas pattern is tagged with its last four characters |
| Merge.Tagged | src/scf_tools/merge.py:44 | every row keeps its place and has its year column set to the tag |
| Merge.RetryPolicy | src/scf_tools/merge.py:43-51 | a file is skipped exactly when the first read raises something other than ValueError, and it raises exactly when a ValueError is followed by a retry that fails or that the reader refuses; the rows read are those of whichever read succeeded, tagged with the year |
| Merge.NoRetryOutsideStata | src/scf_tools/merge.py:11-48 | for csv and sas input a first-read ValueError always escapes, and a file is read exactly when its first read succeeds |
| Merge.ReadFileTagged | src/scf_tools/merge.py:43-51 | every row of a file read carries that file's year tag |
| Merge.ReadFiles | src/scf_tools/merge.py:41-52 | only selected files are ever read |
| Merge.Concat | src/scf_tools/merge.py:54 | concatenation fails exactly on an empty list and otherwise holds the rows in order under the index 0..n-1 |
| Merge.ReadAllShape | src/scf_tools/merge.py:41-54 | there is one table per file read, each that file's tagged rows, and the merged row count is the sum of the files' row counts |
| Merge.MergedRowsTagged | src/scf_tools/merge.py:44-52 | every row of every table read carries the year tag of the file it came from |
| Merge.ReadFilesInOrder | src/scf_tools/merge.py:42 | files are read in selection order, so the files read are in ascending order |
| Merge.ReadAllFailureSticky | src/scf_tools/merge.py:45-48 | once a retry has raised, no later file changes the outcome: the exception ends the loop |
| Merge.ReadAndWrite | src/scf_tools/merge.py:54-72 | after the selection neither "no files" nor an unknown input format can be the outcome |
| Merge.NoFilesRule | src/scf_tools/merge.py:29-31 | the merge stops with nothing read or written exactly when the input format is known and no listed name matches its pattern |
| Merge.MergeReadsSelection | src/scf_tools/merge.py:27-42 | past the selection the merge reads the sorted selection |
| Merge.MergedContents | src/scf_tools/merge.py:52-54 | a written table holds the files' rows in file order under a fresh index, with as many rows as the files read; if every file was skipped nothing is written |
| Merge.SasOutputUnsupported | src/scf_tools/merge.py:59-72 | a sas output has a file name but no writer: it is reported and nothing is written |
| Merge.UnknownOutputRule | src/scf_tools/merge.py:59 | only sas, stata, csv and pickle get past the extension lookup |
| Merge.WrittenRule | src/scf_tools/merge.py:59-66 | a write happens exactly for a format with a writer that returns; it goes to data/_raw/scf_merged plus the extension, and only csv drops the index |
| Merge.ReadLoop | src/scf_tools/merge.py:41-52 | the loop's result is ReadAll: the tagged tables in order, or the file whose retry raised |
| Merge.MergeFiles | src/scf_tools/merge.py:21-74 | the function's outcome is MergeSpec (selection, reading, concatenation, output choice) |
| Cells.Find | src/scf_tools/process.py:54 | `df[name]` finds a column exactly when the name is present, and it is a column of the table with that name |
| Labelling.LabelLookup | src/fedsurvey/scf/process.py:56 | a cell gets a label exactly when it holds a code of the mapping, and then that code's label; every other cell is missing |
| Labelling.MappedFirst | src/fedsurvey/scf/process.py:14-48 | the eight mapped columns are the first eight inputs, in dictionary order |
| Labelling.EightLabelledColumns | src/fedsurvey/scf/process.py:14-56 | exactly eight columns are labelled, as `<col>_lbl`; hhsex maps 0, 1, 2 to "inap.", "male", "female" and 9 to missing |
| Labelling.LabelCells | src/fedsurvey/scf/process.py:56 | each labelled cell is the lookup of the cell in its place |
| Labelling.Lookup | src/fedsurvey/scf/process.py:56-69 | the lookups succeed exactly when every name is present, giving each name's first column; a failure names a missing column |
| Labelling.LookupFailsAt | src/fedsurvey/scf/process.py:56-69 | the KeyError names the first missing column |
| Labelling.LabelColumns | src/fedsurvey/scf/process.py:56 | one `<col>_lbl` column per mapping, in order, holding the labelled cells |
| Labelling.IntervalLabels | src/fedsurvey/scf/process.py:51 | each label reads "(" + (start+1) + "-" + (start+5) + "]" |
| Labelling.AgeLabelsListed | src/fedsurvey/scf/process.py:51 | there are fifteen labels, the k-th "(21+5k-25+5k]" |
| Labelling.FirstAgeLabel | src/fedsurvey/scf/process.py:51 | the first label is "(21-25]" |
| Labelling.LastAgeLabel | src/fedsurvey/scf/process.py:51 | the last label is "(91-95]" |
| Labelling.AgeEdgesListed | src/fedsurvey/scf/process.py:58 | the bin edges are 20, 25, ..., 95 |
| Labelling.BinFrom | src/fedsurvey/scf/process.py:58 | a bin found holds the value in its right-closed interval |
| Labelling.AgeBinInside | src/fedsurvey/scf/process.py:58 | an age in (20+5k, 25+5k] gets the k-th label |
| Labelling.AgeBinOutside | src/fedsurvey/scf/process.py:58 | an age is missing exactly when it is not a number or lies outside (20, 95] |
| Labelling.AgeCells | src/fedsurvey/scf/process.py:58 | each age cell is binned in its place |
| Labelling.DivExact | src/fedsurvey/scf/process.py:60-61 | a quotient times a nonzero denominator is the numerator; a zero denominator gives an infinity of the numerator's sign, or missing for 0/0 |
| Labelling.ReplaceInf | src/fedsurvey/scf/process.py:60-61 | infinities become missing and every other cell is kept |
| Labelling.RatioRules | src/fedsurvey/scf/process.py:60-61 | a zero denominator gives missing, a nonzero one the quotient, and a ratio is never infinite |
| Labelling.RatioCells | src/fedsurvey/scf/process.py:60-61 | each ratio cell is the ratio of the cells in its place |
| Labelling.ScaleCells | src/fedsurvey/scf/process.py:62-65 | each scaled cell is the cell divided by the constant |
| Labelling.ScaleRules | src/fedsurvey/scf/process.py:62-65 | a scaled number is the number over the constant; infinities keep their sign, missing stays missing, and a scaled cell is infinite exactly when its source is |
| Labelling.DecileCells | src/fedsurvey/scf/process.py:67-69 | one decile per row, computed from that row's year group |
| Labelling.DecileValues | src/fedsurvey/scf/process.py:67-69 | a decile is missing or one of 0, 0.1, ..., 0.9 |
| Labelling.DecileWithinYear | src/fedsurvey/scf/process.py:67-69 | adding a row of another year changes no existing row's decile |
| Labelling.NumericInputs | src/fedsurvey/scf/process.py:58-69 | after the mapped columns the script reads age, equity, fin, income and year |
| Labelling.LookupHeights | src/fedsurvey/scf/process.py:73 | each looked-up column has the table's height |
| Labelling.FoundCells | src/fedsurvey/scf/process.py:56-69 | each name's cells are those of its first column |
| Labelling.TransformationsFound | src/fedsurvey/scf/process.py:54-70 | with every input present the derived columns are the labels followed by the age, ratio, scale and decile columns of those inputs |
| Labelling.TransformationsFailure | src/fedsurvey/scf/process.py:54-70 | the derived columns fail exactly when an input is missing, naming a missing input |
| Labelling.LabelColumnsShape | src/fedsurvey/scf/process.py:56 | the label columns are named hhsex_lbl ... race_lbl and have the table's height |
| Labelling.NumericColumnsShape | src/fedsurvey/scf/process.py:58-69 | the other columns are named age_lbl, equityfin, ..., findeciles and have the table's height |
| Labelling.TransformationsShape | src/fedsurvey/scf/process.py:54-73 | the derived table has the sixteen derived names, in order, and the merged table's height |
| Labelling.FilterColumns | src/fedsurvey/scf/process.py:76-79 | a column is kept exactly when it is in the table and its name contains an alternative |
| Labelling.FilterAppend | src/fedsurvey/scf/process.py:76-79 | filtering the original columns then the derived ones is filtering each, in that order |
| Labelling.FilterKeepsAll | src/fedsurvey/scf/process.py:77-79 | a table whose every name matches is kept whole |
| Labelling.FilterDropsOne | src/fedsurvey/scf/process.py:77-79 | a table with exactly one non-matching column loses that column and keeps the rest in order |
| Labelling.LabelNamesKept | src/fedsurvey/scf/process.py:56-78 | every label column name contains an alternative |
| Labelling.NumericNamesKept | src/fedsurvey/scf/process.py:58-78 | every other derived name but fillthou contains an alternative |
| Labelling.DerivedKept | src/fedsurvey/scf/process.py:54-78 | every derived name but the 13th, fillthou, contains an alternative |
| Labelling.FillthouDropped | src/fedsurvey/scf/process.py:63-78 | "fillthou" contains none of the fourteen alternatives |
| Labelling.DerivedFiltered | src/fedsurvey/scf/process.py:63-79 | the full filter keeps all sixteen derived columns but fillthou, in order |
| Labelling.MinimalWithinFull | src/fedsurvey/scf/process.py:78-82 | a name the minimal filter keeps the full filter keeps too |
| FedsurveyProcess.KeyErrorRule | src/fedsurvey/scf/process.py:54-70 | the script fails exactly when an input column is missing, with the KeyError of the first missing one |
| FedsurveyProcess.FullTableLayout | src/fedsurvey/scf/process.py:76-79 | the full table is the matching original columns in order, then every derived column but fillthou in creation order |
| FedsurveyProcess.OutputHeights | src/fedsurvey/scf/process.py:73-82 | both output tables have the merged table's height |
| FedsurveyProcess.FillthouNeverKept | src/fedsurvey/scf/process.py:63-79 | no full-table column is named fillthou |
| FedsurveyProcess.MinimalWithinFullTable | src/fedsurvey/scf/process.py:76-82 | every minimal column is an original column and a full-table column, and the minimal table is the minimal filter of the full filter of the originals |
| FedsurveyProcess.FilterNarrows | src/fedsurvey/scf/process.py:76-82 | applying the full filter first does not change the minimal filter |
| ScfToolsProcess.CleanColumn | src/scf_tools/process.py:84 | the name and height are kept, infinities become missing, and no cell is infinite |
| ScfToolsProcess.Cleaned | src/scf_tools/process.py:84 | every column is cleaned in its place |
| ScfToolsProcess.ReplaceInfinities | src/scf_tools/process.py:84 | the in-place loop over every cell leaves exactly the cleaned table |
| ScfToolsProcess.Select | src/scf_tools/process.py:54 | `df[name]` succeeds exactly when the column is present and gives its first column's cells; otherwise the KeyError names it |
| ScfToolsProcess.LabelLoop | src/scf_tools/process.py:50-54 | the loop builds one `<col>_lbl` column per mapping in order from each mapped column, or stops with the KeyError of the first missing one |
| ScfToolsProcess.NumericSteps | src/scf_tools/process.py:56-81 | the age, ratio, scale and decile assignments append exactly the numeric derived columns to the labels, or stop with the first missing input's KeyError |
| ScfToolsProcess.LabelsFound | src/scf_tools/process.py:53-54 | the labels the loop builds are the label columns of the derived table |
| ScfToolsProcess.Process | src/scf_tools/process.py:50-90 | the script step by step yields what ProcessSpec says: the KeyError, or the filtered table of the originals and the cleaned derived columns |
| ScfToolsProcess.CleanedNames | src/scf_tools/process.py:84 | the cleanup keeps every column name |
| ScfToolsProcess.OutputLayout | src/scf_tools/process.py:84-90 | the output is the matching original columns in order, then the cleaned derived columns but fillthou; no derived column holds an infinity |
| ScfToolsProcess.SameKeyError | src/scf_tools/process.py:50-81 | the script fails exactly when the fedsurvey script does, with the same KeyError |
| ScfToolsProcess.CleanupKeepsFinite | src/scf_tools/process.py:84 | the cleanup leaves a table with no infinity unchanged |
| ScfToolsProcess.LabelsFinite | src/scf_tools/process.py:53-54 | label columns hold no infinity |
| ScfToolsProcess.NumericFinite | src/scf_tools/process.py:60-81 | with finite fin and income the age, ratio, scale and decile columns hold no infinity |
| ScfToolsProcess.DerivedFinite | src/scf_tools/process.py:53-81 | with finite fin and income no derived cell is infinite |
| ScfToolsProcess.AgreesWithFedsurvey | src/scf_tools/process.py:63-90 | with finite fin and income the output equals the fedsurvey script's full table |

## Left out

- The real network, sessions, zip decoding and file reads are left out. A session is a function from URL to a response or a request failure, and the zip decoder is a function from bytes to members or a bad zip. The directory listing, the pandas readers and the pandas writers are oracles.
- Stata, SAS and CSV encodings are left out, as is what `convert_categoricals=False` changes in the rows read. A read yields rows, a ValueError or another exception.
- Logging and printed messages are left out; a message the source prints becomes an outcome value (`MergeOutcome`, `Outcome`).
- Module-level execution and path resolution are left out: `Path(__file__).resolve()`, the `mkdir` calls run when `fedsurvey/scf/download.py` is imported, and the reading and writing of the .dta files in both `process.py` scripts. The package directory and the save directory are parameters, and the scripts are functions of the merged table.
- Directories are a set of names. `mkdir` on a missing parent, a directory sitting at an archive path, and OSError while writing are not modelled, and neither are partly written files.
- Labelling.DecileCells: the quantile edges of `pd.qcut` (float quantiles, dropped duplicate edges) come from the `Qcut` oracle. The model fixes only the group each value is binned in and that a bin index is below 10; an infinite fin is left to the oracle too.
- FedsurveyDownload.DownloadAllYears: the order in which CPython iterates the set `YEARS_IN_SCF` is a parameter (any arrangement of the twelve years), not the interpreter's hash order.
- Labelling.Div: IEEE arithmetic is modelled on reals. Rounding is absent, -0.0 is not distinguished from 0.0, and NaN is the missing marker.
- Labelling.Label: a text cell in a coded or numeric column is treated as missing, where pandas may raise a TypeError. Codes are matched when the number is integral.
- Merge.Concat: rows are maps from column name to cell, so a row lacks the columns its file lacks. `pd.concat` would align every row to the union of the columns and fill the gaps with NaN, and the model does not.
- Cells.Find: a table with two columns of the same name yields the first one, where pandas would return both.
- The `FedsurveyDownload.CheckYearFileType` error messages are reduced to which check failed.
- `src/scf_tools/__init__.py` (version export) and `tests/test_package.py` (package metadata) are not part of this model.
