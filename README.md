# CSV-to-Excel template filler, modelled in Dafny

The converter takes a directory of CSV files and an `.xlsx` template. For each CSV file it:

1. copies the template to `<output dir>/<csv stem>_<template name>`, or skips the file when that output exists and skipping was asked for;
2. loads the CSV, dropping its first row, blanking missing cells, stripping the control characters U+0001..U+001F, and cutting the chosen columns at their first '.';
3. pastes the loaded grid into the copy's sheet;
4. copies the fill and protection of the sheet's third row (index 2) onto every row below it, unlocking the editable columns first.

A file whose processing raises after the copy was made has its output deleted and is reported as failed. A file whose copy itself raised is reported on the console but is neither deleted nor recorded as failed.

The model has these modules:

- `Strings`: escape stripping (`replace_escapes`) and the two `str.split` uses: the part before the first separator and the part after the last one.
- `Paths`: `Path(dir) / name`, `Path.name` and `Path.stem`, the input-file selection `get_files`, and the output name built by `prepare_template_copy`.
- `Loader`: `load_csv` over the table the CSV reader returns.
- `Formatting`: `restore_formatting` as an in-place method over a two-dimensional array of cells, proved against a function on grids.
- `Disk`: the file system as a class whose `files` map the methods update (`exists`, read, `shutil.copy`, save, `unlink`).
- `Batch`: `prepare_template_copy`, one pass of the per-file `try`/`except` block, the loop and `csv2template`. `prepare_template_copy` is a method whose contract gives its result and the new file system. The other three are methods proved equal to the functions `Step`, `Batch` and `Csv2TemplateSpec`, and the run's properties are lemmas about those functions.

The model follows the code as written:

- Only CSV files are inputs. `get_files` is only ever called with `'csv'`, so only names whose last '.'-segment is `csv` are selected; Excel input files are not read.
- The code contains none of the following, so the model has none of them either:
  - a 300-row cap;
  - a filter on indicator codes 509–512;
  - dropdown lists;
  - a worker pool;
  - a workbook merger.

## Model

| member | source | states |
|---|---|---|
| Strings.ReplaceEscapes | src/csv2excel.py:21-24 | the result is no longer than the text and holds no character U+0001..U+001F |
| Strings.ReplaceEscapesFixpoint | src/csv2excel.py:21-24 | the text comes back unchanged exactly when it holds no such character (both directions) |
| Strings.ReplaceEscapesIdempotent | src/csv2excel.py:21-24 | stripping twice is the same as stripping once |
| Strings.ReplaceEscapesConcat | src/csv2excel.py:21-24 | stripping works character by character: the result for a concatenation is the concatenation of the results |
| Strings.ReplaceEscapesCounts | src/csv2excel.py:21-24 | every control character U+0001..U+001F is deleted, and every other character keeps its number of occurrences (so only the escapes are removed) |
| Strings.BeforeFirst | src/csv2excel.py:33 | `x.split(sep)[0]`: a prefix of the text that holds no separator and ends at the text's end or just before a separator |
| Strings.BeforeFirstUnique | src/csv2excel.py:33 | any prefix with those properties is the result, so the properties define it |
| Strings.BeforeFirstIdempotent | src/csv2excel.py:33 | cutting at the first '.' twice is the same as cutting once |
| Strings.BeforeFirstDotExamples | src/csv2excel.py:33 | "12.0" becomes "12" and "12" stays "12" |
| Strings.LastIndexSpec | src/csv2excel.py:17 | the index found is that of the last separator, or -1 when there is none |
| Strings.LastIndexAppend | src/csv2excel.py:17 | in `s + sep + t` with no separator in `t`, the last separator is the one right after `s` |
| Strings.AfterLastSpec | src/csv2excel.py:17 | `AfterLast(s, sep)` is `s.split(sep)[-1]`: a suffix with no separator that is the whole text or is preceded by a separator |
| Strings.AfterLastUnique | src/csv2excel.py:85 | any suffix with those properties is the last '.'-segment, so the properties define it |
| Strings.AfterLastNoSep | src/csv2excel.py:85 | a text without separator is its own last segment |
| Strings.AfterLastAppend | src/csv2excel.py:85 | the last segment of `s + sep + t`, with no separator in `t`, is `t` |
| Paths.JoinSpec | src/csv2excel.py:68 | `Join(dir, name)` (`Path(dir) / name`) starts with the directory and ends with the name, with at most one character between them, and that character is '/' when the directory is non-empty |
| Paths.NameOfJoin | src/csv2excel.py:68 | `(Path(dir) / name).name` is `name` for any plain name |
| Paths.StemSpec | src/csv2excel.py:66 | `Stem(p)` (`Path(p).stem`): the stem holds no '/'. It is the whole name, or the name is the non-empty stem, a '.', and a non-empty last segment. |
| Paths.StemOfCsvName | src/csv2excel.py:17 | every selected file `dir/<x>.csv` with a non-empty `x` has stem `x` |
| Paths.GetFiles | src/csv2excel.py:15-18 | `get_files` over a listing: it returns at most one path per listed name (its partners are the three lemmas below) |
| Paths.GetFilesSound | src/csv2excel.py:15-18 | every path returned is the directory joined to a listed name whose last '.'-segment is the file type |
| Paths.GetFilesComplete | src/csv2excel.py:15-18 | every listed name of that type is returned, joined to the directory |
| Paths.GetFilesConcat | src/csv2excel.py:15-18 | selection keeps listing order: the result for a concatenated listing is the concatenation of the results |
| Paths.GetFilesDotlessName | src/csv2excel.py:17 | a name with no '.' that equals the type itself (a file named `csv`) is selected |
| Paths.OutputPathName | src/csv2excel.py:66-68 | `OutputPath`, the path `prepare_template_copy` builds: the output file's name is the CSV stem, '_', and the template's name |
| Paths.OutputPathInjective | src/csv2excel.py:66-68 | two CSV files share an output path exactly when their stems are equal (both directions) |
| Loader.CleanCell | src/csv2excel.py:30-33 | a cell after `fillna`, `replace_escapes` and, in a chosen column, the cut at the first '.': a missing cell becomes "". The result is escape-free. In other columns it is the stripped text. In a chosen column it is the prefix of the stripped text up to its first '.', or all of it when it has none, so it holds no '.'. |
| Loader.CleanCellIdempotent | src/csv2excel.py:30-33 | cleaning a cleaned cell changes nothing |
| Loader.CleanCellKeepsCleanText | src/csv2excel.py:30-33 | text that is escape-free, and also '.'-free in a chosen column, passes through unchanged |
| Loader.CleanCellIntExamples | src/csv2excel.py:30-33 | "12.0" becomes "12", "12" stays "12", and a missing cell becomes "" in a chosen column |
| Loader.LoadCsv | src/csv2excel.py:27-34 | a result exactly when every chosen column exists (otherwise a KeyError). The result has the table's rows minus the first, with the table's width and every cell cleaned per its column. |
| Loader.LoadCsvSanitised | src/csv2excel.py:27-34 | every loaded cell is escape-free, and a chosen column's cells hold no '.' |
| Loader.LoadCsvDropsFirstRow | src/csv2excel.py:29 | a clean cell of row i + 1 of the table appears unchanged at row i of the result |
| Formatting.ColumnStyles | src/csv2excel.py:43-56 | the `styles` list has one entry per cell of row 2, holding that cell's fill and, in an editable column, an unlocked protection, else that cell's protection |
| Formatting.Restored | src/csv2excel.py:37-59 | the shape is kept and rows 0 and 1 are untouched. Every cell from row 2 on keeps its value and takes the fill of row 2 in its column. Its protection is unlocked in an editable column and is row 2's protection elsewhere. |
| Formatting.RestoredStyleRow | src/csv2excel.py:49-56 | row 2 keeps its fill, and its editable columns become unlocked |
| Formatting.RestoredColumnsUniform | src/csv2excel.py:58-59 | from row 2 down, every cell of a column has the same fill and protection as row 2 |
| Formatting.RestoredIdempotent | src/csv2excel.py:37-59 | restoring twice is the same as restoring once |
| Formatting.RecordStyles | src/csv2excel.py:48-57 | on row 2, unlocks the editable columns and records each column's fill and protection. The recorded styles are those of the grid before the call; only row 2 changes. |
| Formatting.RestyleRow | src/csv2excel.py:48-59 | gives every cell of one row the recorded fill and protection of its column, and changes nothing else |
| Formatting.RestoreFormatting | src/csv2excel.py:37-59 | the sheet afterwards is `Restored` of the sheet before |
| Disk.FileSystem.Exists | src/csv2excel.py:69 | true exactly when the path is present |
| Disk.FileSystem.Read | src/csv2excel.py:108-109 | reading a file gives its bytes when it exists and fails otherwise (the reads done by `read_csv` and by opening the workbook) |
| Disk.FileSystem.Save | src/csv2excel.py:109-116 | saving the workbook on leaving the `ExcelWriter` block replaces that one path's bytes and changes nothing else |
| Disk.FileSystem.Copy | src/csv2excel.py:72 | the copy succeeds exactly when the source exists and differs from the destination. It then overwrites or creates the destination with the source's bytes and changes nothing else; otherwise nothing changes. |
| Disk.FileSystem.Unlink | src/csv2excel.py:122 | the path is absent afterwards (`missing_ok=True`), and nothing else changes |
| Batch.PrepareTemplateCopy | src/csv2excel.py:62-74 | returns the output path `<dir>/<stem>_<template name>`. It skips exactly when skipping was asked for and the output exists. Otherwise it copies the template there, and it raises only when that copy raises. |
| Batch.Convert | src/csv2excel.py:108-116 | the work after the copy: a missing CSV file, a reader failure or a KeyError from `load_csv` yields no workbook. Otherwise the result is the write applied to the copied workbook and the loaded grid. |
| Batch.Step | src/csv2excel.py:97-123 | a file is skipped exactly when skipping was asked for and its output exists. The copy raises exactly when the template is missing or is the output, and then nothing is recorded. After a successful copy, the file fails exactly when `Convert` on the copied workbook raises, and otherwise its output holds `Convert`'s workbook. A failed file's output is absent, a converted file's output is present, and no other path changes. |
| Batch.ProcessFile | src/csv2excel.py:98-123 | the file system and the outcome of one loop pass are those of `Step` |
| Batch.ConvertAll | src/csv2excel.py:95-123 | the file system and the failed list after the loop are those of `Batch` (the loop as a fold of `Step` over the input files in order) |
| Batch.BatchTouchesOnlyOutputs | src/csv2excel.py:95-123 | a path that is no input's output keeps its presence and its contents |
| Batch.BatchFailedAreInputs | src/csv2excel.py:118-123 | the failed list is no longer than the inputs, and every failed file is an input |
| Batch.BatchSkipExisting | src/csv2excel.py:97-106 | with skipping on and every output present, nothing changes and nothing fails |
| Batch.BatchTemplateMissing | src/csv2excel.py:97-123 | with the template missing, every file is skipped or its copy raises before an output path is returned: nothing changes and nothing is reported failed |
| Batch.BatchFailedExactly | src/csv2excel.py:95-123 | when the inputs' outputs are distinct and the template is present and no input's output, an input is in the failed list exactly when its output is absent at the end. A skipped or converted file is never listed, and every file that failed after its copy is listed. |
| Batch.BatchFailedOutputsRemoved | src/csv2excel.py:121-123 | when the inputs' outputs are distinct, no failed file's output is left on disk |
| Batch.Csv2TemplateSpec | src/csv2excel.py:85-93 | the run stops at once, with nothing changed, exactly when the template's last '.'-segment is not `xlsx`. It also stops at once exactly when it is `xlsx` and no listed name is a CSV file. |
| Batch.Csv2Template | src/csv2excel.py:77-127 | the file system and the report of a whole run are those of `Csv2TemplateSpec` |

## Left out

- The CSV reader (`pandas.read_csv` with `header=None`) is a parameter, a function from a file's bytes to a table of optional cells or a failure. The model does not parse CSV text.
- `to_excel` is a parameter of the batch run. It covers opening the copied workbook with `openpyxl`, pasting at row 2 and column 4, and saving. `restore_formatting` is modelled on its own, as `Formatting.RestoreFormatting`, over the sheet's cells. In the batch run it is part of that write parameter, which takes the sheet name and the editable column ids.
- Cells are strings or missing. A numeric cell on which `replace_escapes` would raise is not modelled.
- Fill and cell values are type parameters. The model does not look inside them.
- `tqdm` progress output and every `print` are not modelled, including the message that says "xlsl" where "xlsx" is meant. The reports `WrongTemplateType`, `NoCsvFiles` and `Finished(failed)` stand for what is printed.
- `os.listdir` is a parameter, the directory's listing. The exception it raises for a missing directory is not modelled.
- Paths are plain strings joined with one '/'. `pathlib` normalisation is not modelled: repeated or trailing slashes, `.` components and absolute names are not collapsed.
- Paths.Stem: follows the long-standing `pathlib` rule (the last '.' starts the suffix unless it is the name's first or last character). Newer `pathlib` releases treat a trailing '.' differently, and that is not modelled.
- Disk.FileSystem.Copy: fails only for a missing template or for a destination equal to the template (`SameFileError`). Other I/O errors, directories, permissions and aliasing through different spellings of one path are not modelled.
- The console messages printed for every exception (lines 119-120), including one raised by the copy, are not modelled.
- Concurrency, the clock and file metadata are not modelled.
- `run.py`, the command-line entry point, is not part of this model.
