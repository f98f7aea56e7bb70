# gmprocess report, resampling and gminfo bookkeeping in Dafny

This project models three deterministic parts of the gmprocess ground-motion
processing toolkit and proves properties of each.

- **The LaTeX summary report** (`src/gmprocess/io/report.py`):
  - `str_for_latex`, the chain of nine `str.replace` calls that escapes LaTeX
    special characters;
  - the loop in `get_prov_latex` that blanks repeated "Process Step" entries,
    modelled in place on an array;
  - `build_report_latex`, which assembles the report. It starts from the
    preamble. It adds the title page when the station map exists, with the
    moveout page filled in or dropped. It sorts the streams by id, and for
    each stream it fills the stream block and adds the provenance table, the
    pick method, the neural-network scores, the first failure reason and a
    page break. It ends with the postamble.
- **Resampling control** (`src/gmprocess/waveform_processing/resample.py`):
  - a stream that has not passed is returned unchanged;
  - any method other than Lanczos raises;
  - otherwise every trace that passed is interpolated to the new rate and gets
    one "resample" provenance record.

  Traces and streams are classes whose fields the methods update in place.
- **The gminfo command** (`src/gmprocess/bin/gminfo.py`):
  - the process-level codes;
  - one table row per trace (`get_dataframe`);
  - the name and table format of the errors file (`App.main`);
  - the walk over the files in `render_concise`, which notes each sub-folder
    once, collects rows and error rows, and sorts the table;
  - the option check in `cli`.

Modules:
- `Wrappers`: `Option` and `Result`.
- `Text`: Python's `str.replace`, plus lemmas that push a replacement through
  a template cut into pieces.
- `Latex`: `str_for_latex`.
- `Ordering`: Python's string and tuple order, and a stable sort by key.
- `Report`: the report.
- `Resampling`: resampling.
- `Gminfo`: gminfo.

`Report.Trace` and `Resampling.Trace` are two views of one entity, the
station trace. The report only reads a trace, so it sees a value holding the
failure reason (`None` when the trace passed) and the picker type. Resampling
updates a trace in place, so it sees an object holding the parameters, the
provenance log and the sampling rate, where a trace passes while it has no
"failure" parameter. The model takes the two views to agree: a trace has a failure reason exactly
when its "failure" parameter is set.

Everything outside the program is an input. That covers:
- whether a file exists;
- what the reader returned for each data file (its streams, or the text of
  the exception it raised);
- the printed numbers;
- the provenance table text.

Printing and the writing of files are left out. What would be written, and
where, is part of the result.

## Model

| member | source | states |
|---|---|---|
| Latex.StrForLatexIsEscapeAll | src/gmprocess/io/report.py:354-367 | The nine chained replacements equal escaping each character independently: no replacement text is rewritten by a later rule. |
| Latex.StrForLatexChar | src/gmprocess/io/report.py:358-366 | A one-character string becomes the escape of that character. |
| Latex.StrForLatexUnderscore | src/gmprocess/io/report.py:358 | `_` becomes `\_`. |
| Latex.StrForLatexDollar | src/gmprocess/io/report.py:359 | `$` becomes `\$`. |
| Latex.StrForLatexAmpersand | src/gmprocess/io/report.py:360 | `&` becomes `\&`. |
| Latex.StrForLatexPercent | src/gmprocess/io/report.py:361 | `%` becomes `\%`. |
| Latex.StrForLatexHash | src/gmprocess/io/report.py:362 | `#` becomes `\#`. |
| Latex.StrForLatexRightBrace | src/gmprocess/io/report.py:363 | `}` becomes `\}`, and the brace rule that runs later does not touch it. |
| Latex.StrForLatexLeftBrace | src/gmprocess/io/report.py:364 | `{` becomes `\{`. |
| Latex.StrForLatexTilde | src/gmprocess/io/report.py:365 | `~` becomes `\textasciitilde ` (with the trailing space). |
| Latex.StrForLatexCaret | src/gmprocess/io/report.py:366 | `^` becomes `\textasciicircum `. |
| Latex.StrForLatexPlain | src/gmprocess/io/report.py:358-366 | Any character other than the nine is kept as it is. |
| Latex.StrForLatexAppend | src/gmprocess/io/report.py:354-367 | Escaping a concatenation is the concatenation of the escaped parts. |
| Latex.StrForLatexUnchanged | src/gmprocess/io/report.py:354-367 | The result equals the input exactly when the input holds none of the nine characters. The result is never shorter than the input. |
| Latex.StrForLatexBackslashes | src/gmprocess/io/report.py:354-367 | The result has the input's backslashes plus exactly one per special character: backslashes already present are not escaped. |
| Latex.StrForLatexRoundTrip | src/gmprocess/io/report.py:354-367 | On input without a backslash, unescaping the result gives back the input. |
| Latex.StrForLatexNotInjective | src/gmprocess/io/report.py:365 | `~` and the text `\textasciitilde ` escape to the same result, so no inverse exists once backslashes are allowed. |
| Latex.StrForLatexKeepsOthers | src/gmprocess/io/report.py:354-367 | Take a character that no rule rewrites and that no replacement text contains. It occurs in the result exactly when it occurs in the input. |
| Text.ReplaceAllAbsent | src/gmprocess/io/report.py:169-177 | `str.replace` leaves a text without the pattern unchanged. |
| Text.ReplaceAllAppend | src/gmprocess/io/report.py:169-177 | A replacement distributes over a concatenation when no occurrence of the pattern straddles the seam. |
| Text.FillSplice | src/gmprocess/io/report.py:169-177 | In a template made of pieces, replacing a placeholder that occurs once substitutes exactly that piece. |
| Text.Absent | src/gmprocess/io/report.py:169-177 | A bracket placeholder never occurs in a join of pieces that are free of it. |
| Text.ReplaceAllLeading | src/gmprocess/io/report.py:185 | In a text that starts with the pattern, that leading occurrence becomes the replacement and the rest is processed after it. |
| Ordering.KeyLeTotal | src/gmprocess/bin/gminfo.py:145 | Any two keys are comparable. |
| Ordering.KeyLeTrans | src/gmprocess/bin/gminfo.py:145 | The key order is transitive. |
| Ordering.SortByCorrect | src/gmprocess/io/report.py:184 | The sort returns a permutation of its input, ordered by key. |
| Ordering.SortByLength | src/gmprocess/io/report.py:184 | Sorting keeps the number of elements. |
| Report.TitleBlockFilled | src/gmprocess/io/report.py:169-177 | The title page is its template with `stations_map.png`, the version, and the moveout snippet (pointing at `moveout_plot.png`) or nothing, each in place of its placeholder. |
| Report.TitleBlockComplete | src/gmprocess/io/report.py:169-177 | No placeholder is left in the title page, whether or not the moveout plot exists. |
| Report.StreamBlockFilled | src/gmprocess/io/report.py:201-208 | The stream block is its template with the plot path, the event line and the station line in place, and no placeholder is left. |
| Report.BuildTitleBlock | src/gmprocess/io/report.py:169-177 | The replacements, in the source's order, give the title page. |
| Report.BuildStreamBlock | src/gmprocess/io/report.py:201-208 | The replacements, in the source's order, give the stream block. |
| Report.BuildProvText | src/gmprocess/io/report.py:211-218 | The provenance table, or the escaped fallback sentence when building the table raises. |
| Report.BuildFailureText | src/gmprocess/io/report.py:230-235 | The loop that stops at the first failed trace gives that trace's reason line, and nothing for a stream that passed. |
| Report.BuildPage | src/gmprocess/io/report.py:189-236 | One pass of the stream loop appends exactly that stream's page. |
| Report.AppendPages | src/gmprocess/io/report.py:188-236 | The stream loop appends the pages of the sorted streams in order. |
| Report.BuildReportLatex | src/gmprocess/io/report.py:164-239 | The report the method builds equals the report function: preamble, title page when the map exists, pages of the streams sorted by id, postamble. |
| Report.ReportOpening | src/gmprocess/io/report.py:164-178 | The report starts with the preamble, followed directly by the title page when the map exists. |
| Report.ReportClosing | src/gmprocess/io/report.py:239 | The report ends with the postamble. |
| Report.PageEndsWithNewPage | src/gmprocess/io/report.py:236 | Every stream page ends with `\newpage`. |
| Report.PagesConcat | src/gmprocess/io/report.py:188-236 | The pages of a stream list are the join of each stream's page, in list order. |
| Report.SortKeepsNonEmpty | src/gmprocess/io/report.py:184 | Sorting keeps every stream, so each still has a first trace. |
| Report.EventIdStripsPrefix | src/gmprocess/io/report.py:185 | An id made of `smi:local/` and a rest without that text becomes the rest. |
| Report.EventIdPlain | src/gmprocess/io/report.py:185 | An id without a slash is kept as it is. |
| Report.FirstFailureAt | src/gmprocess/io/report.py:231-235 | The reason reported is that of the first failed trace: every trace before it passed. |
| Report.FirstFailureNone | src/gmprocess/io/report.py:231-235 | No reason is found exactly when every trace passed. |
| Report.FailureTextEmpty | src/gmprocess/io/report.py:230-235 | A page has no failure line exactly when the stream passed or all its traces passed. |
| Report.FailureTextFirst | src/gmprocess/io/report.py:230-235 | A failed stream gets exactly one failure line, holding the escaped reason of its first failed trace. |
| Report.BlankedStepsAt | src/gmprocess/io/report.py:331-336 | Entry `i` is blanked exactly when its index equals the previous row's index (`-1` for the first row). Every other entry is kept. |
| Report.BlankedStepsIdempotent | src/gmprocess/io/report.py:331-336 | Blanking twice gives the same column as blanking once. |
| Report.BlankedStepsDistinct | src/gmprocess/io/report.py:331-336 | With non-negative indices that each differ from the previous one, nothing is blanked. |
| Report.BlankFromStart | src/gmprocess/io/report.py:331-336 | The left-to-right reading that carries `last_row` agrees with the positional rule. |
| Report.BlankRepeatedSteps | src/gmprocess/io/report.py:331-336 | The in-place loop leaves the column blanked by the rule, with its length unchanged. |
| Resampling.Resample | src/gmprocess/waveform_processing/resample.py:25-36 | A stream that has not passed comes back unchanged. A passed stream with another method gives the ValueError text, with nothing changed. Otherwise the same stream comes back. Each passed trace then has the new rate, the same parameters and one more provenance record, ("resample", new rate), after its old ones. Every other trace is untouched. |
| Resampling.ResampleProvenance | src/gmprocess/waveform_processing/resample.py:34 | After the append, the "resample" records are the old ones plus the new rate, and the records of every other operation are unchanged. |
| Resampling.Trace.SetProvenance | tests/gmprocess/core/statrace_test.py:22-29 | Setting a provenance record appends it to the log and changes nothing else. |
| Resampling.Trace.SetParameter | tests/gmprocess/core/statrace_test.py:23-32 | Setting a parameter sets or replaces that one key. |
| Resampling.Trace.Interpolate | src/gmprocess/waveform_processing/resample.py:33 | Interpolation leaves the trace at the requested sampling rate. |
| Resampling.RecordsOfAppend | tests/gmprocess/core/statrace_test.py:22-29 | Looking up an operation after an append gives its earlier records, plus the new one when it is of that operation. |
| Resampling.RecordsOfAbsent | tests/gmprocess/core/statrace_test.py:27-29 | An operation never logged has no records. |
| Gminfo.ProcessLevelsInverse | src/gmprocess/bin/gminfo.py:40-45 | Exactly the four descriptions are keys, mapped one to one onto V0 to V3. |
| Gminfo.DataframeRows | src/gmprocess/bin/gminfo.py:99-119 | When every level is known there is one row per trace, in stream order. Each row carries the filename, that trace's fields, its level code and the duration end − start. |
| Gminfo.DataframeKeyError | src/gmprocess/bin/gminfo.py:106 | The first trace with an unknown level raises KeyError with that level, and no rows are returned. |
| Gminfo.DataframeErrorStays | src/gmprocess/bin/gminfo.py:101-118 | Once a prefix of the stream raises, the whole stream raises the same error. |
| Gminfo.GetDataframe | src/gmprocess/bin/gminfo.py:99-119 | The row-building loop gives the rows of the data-frame function, or its KeyError. |
| Gminfo.StemSuffix | src/gmprocess/bin/gminfo.py:84-85 | A name is its stem followed by its suffix. A suffix is empty, or a dot followed by at least one non-dot character after a non-empty stem. |
| Gminfo.NameSplit | src/gmprocess/bin/gminfo.py:83 | A path is the text up to its last slash followed by its name, and the name holds no slash. |
| Gminfo.JoinParent | src/gmprocess/bin/gminfo.py:84 | Joining a non-empty name onto a path's parent gives the text up to the path's last slash followed by that name. |
| Gminfo.ErrorFileInsert | src/gmprocess/bin/gminfo.py:83-86 | The errors file is the outfile with `_errors` put just before its suffix. |
| Gminfo.ErrorFilePlace | src/gmprocess/bin/gminfo.py:83-86 | The errors file has the outfile's parent, and its name is the outfile's stem + `_errors` + suffix. |
| Gminfo.ErrorFileSuffix | src/gmprocess/bin/gminfo.py:85-86 | The errors file keeps the outfile's non-empty suffix. |
| Gminfo.XlsxSuffix | src/gmprocess/bin/gminfo.py:89 | The suffix is `.xlsx` exactly when the name ends in `.xlsx` after at least one other character. |
| Gminfo.Main | src/gmprocess/bin/gminfo.py:78-79 | The call fails exactly when the directory does not exist, with the OSError text naming it. |
| Gminfo.MainErrorFile | src/gmprocess/bin/gminfo.py:82-88 | The saved errors file lies beside the catalog and is the catalog's name with `_errors` before the suffix. |
| Gminfo.MainErrorFileNoName | src/gmprocess/bin/gminfo.py:82-86 | A catalog path without a name (empty, or ending in a slash) gets its folder's text followed by `_errors`, so `""` gives `._errors` and `/` gives `/_errors`. |
| Gminfo.MainFormat | src/gmprocess/bin/gminfo.py:89-94 | Both tables are Excel exactly when the catalog's name ends in `.xlsx` after at least one other character, and CSV otherwise. |
| Gminfo.FoldersDistinct | src/gmprocess/bin/gminfo.py:124-130 | No sub-folder is listed twice. |
| Gminfo.FoldersSeen | src/gmprocess/bin/gminfo.py:126-130 | A folder is listed exactly when some file lies in it. |
| Gminfo.FoldersGrow | src/gmprocess/bin/gminfo.py:126-130 | Later files only add folders at the end: folders stay in first-seen order. |
| Gminfo.StreamRowsClean | src/gmprocess/bin/gminfo.py:131-135 | A file whose traces all have known levels adds one row per trace and no error. |
| Gminfo.StreamRowsStops | src/gmprocess/bin/gminfo.py:131-141 | The first stream that raises stops the file. The rows of the streams before it stay, and its error becomes the file's. |
| Gminfo.StreamRowsErrorStays | src/gmprocess/bin/gminfo.py:133-135 | Streams after the one that raised add nothing. |
| Gminfo.CollectedErrors | src/gmprocess/bin/gminfo.py:136-141 | An error row (file, text) is present exactly when that file raised that text, and the files after it are still read. |
| Gminfo.CollectedErrorCount | src/gmprocess/bin/gminfo.py:136-141 | There are never more error rows than files. |
| Gminfo.CollectedErrorsOnePerFile | src/gmprocess/bin/gminfo.py:131-141 | There are exactly as many error rows as positions of files that raised: each such file adds one row, and no other file adds any. |
| Gminfo.ReadFile | src/gmprocess/bin/gminfo.py:131-141 | The `try` block for one file gives its rows and its error as the specification functions define them. |
| Gminfo.RenderConcise | src/gmprocess/bin/gminfo.py:122-149 | The loop gives the first-seen folder list, the error rows, and the collected rows sorted by network, station and channel. |
| Gminfo.ConciseTable | src/gmprocess/bin/gminfo.py:145 | The concise table is sorted by (network, station, channel) and holds exactly the collected rows. |
| Gminfo.CliSaves | src/gmprocess/bin/gminfo.py:258-279 | With arguments given, a run happens exactly when the listing is concise or no (or an empty) save name is given. A run that names a file to save to saves the catalog and the errors file. |

## Left out

- PDF building, directory creation and file writing in `report.py`: these are I/O. The report text is the result.
- The epicentral distance, the rounded depth and the printed magnitude and scores: these are floating-point computations and formatting by numpy and obspy. They enter as ready-made text.
- The provenance table in `get_prov_latex`: the pandas frame, `style.to_latex` and the regex clean-up are library behaviour. The table enters as text, or as `None` when building it raises ValueError. Only the blanking loop is modelled.
- The channel ordering in `get_prov_latex`: it depends on numpy's `argsort`.
- Report.TitleBlockFilled, Report.TitleBlockComplete and Report.StreamBlockFilled: the fill lemmas require the inserted texts (plot path, event and station lines, version) to hold no `[`. Without that, an inserted text could itself contain a placeholder.
- Report.BuildReportLatex: `st_list.sort` sorts the caller's list in place. The model sorts a sequence and leaves the caller's list alone. It proves the sorted order and the permutation, but not the stability of Python's sort.
- Report.BuildReportLatex and Report.BuildPage: the streams are required to have at least one trace, because the source reads `st[0]` for every stream.
- Resampling.Trace.Interpolate: obspy's Lanczos interpolation is numerical work. It is modelled only by the new sampling rate.
- Resampling.Resample: the stream is required to hold each trace object once (`Stream.Valid`). Rates are `real`, not floating point.
- The `@processing_step` decorator and the configuration argument of `resample` are not part of this model.
- The trace metadata class (`stationtrace.py`) is not part of this model. Resampling.Trace.Passed assumes that a trace passes exactly when it has no "failure" parameter; no file in the modelled core states this. The tests in `tests/gmprocess/core/statrace_test.py` show only that parameters are set by key and that provenance records are appended and read back.
- Gminfo.ErrorFileInsert, Gminfo.ErrorFilePlace, Gminfo.ErrorFileSuffix and Gminfo.MainErrorFileNoName: pathlib's normalisation is not modelled. The path text is taken as written; this covers "./" prefixes, repeated slashes, and a trailing slash, which pathlib drops. The lemmas ask for a path with a name, that is, non-empty and not ending in a slash.
- Gminfo.MainErrorFile: the errors file is computed from the outfile text as written (`ErrorFileName`), not from pathlib's normalised path. For `./out.csv` the source writes `out_errors.csv` and the model gives `./out_errors.csv`; for `a.csv/` the source gives `a_errors.csv` and the model `a.csv_errors`. The lemma requires a path with a name. Gminfo.MainErrorFileNoName covers the other paths, under the same reading.
- Gminfo.TraceStats and Gminfo.Row hold the start and end times, the duration, the sampling rate and the coordinates as `real`. The source has obspy `UTCDateTime` values and floats, so rounding and the time type's resolution are not modelled.
- Gminfo.DataframeKeyError: `str(KeyError(k))` is the repr of the key. The model quotes the key without Python's escaping of quotes and backslashes.
- `render_dir`, `_walk`, `render_verbose` and the reader (`read_data`, `_get_format`): these are file-system walks and readers. What the reader gave for each file is an input.
- Gminfo.CliSaves: argparse parsing, its errors, and the help text are not modelled. The parsed options are inputs.
- Printing to stdout and stderr, and the writing of Excel or CSV files. The model returns what would be written and where.
- The ASDF workspace (`src/gmprocess/io/asdf/core.py`) and the windowing and corner-frequency code: these are outside the modelled core.
