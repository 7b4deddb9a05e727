# Reservation spreadsheet reader: the decision logic

`scripts/read_reservation_excel.py` finds a reservation spreadsheet, previews
one of its sheets, and can export that sheet as CSV or JSON. This project
models the three parts of the script that make decisions, and proves what
they promise:

- **Resolver** (`resolve_excel_file`):
  - An explicit path is accepted when it is a regular file whose lowered
    suffix is one of `.xlsx`, `.xls` or `.xlsm`.
  - A directory resolves to its newest direct child that is a regular file
    with one of those suffixes.
  - Each remaining case fails with its own error.
- **Sheet selector**: a `--sheet` string made only of digits becomes a
  zero-based index. Any other value is passed to the reader unchanged.
- **Run**: `main` after argument parsing. The steps run in a fixed order:
  resolve, load, print the preview, check the output suffix, write,
  confirm. A run is a value: the ordered list of effects it performs and
  the error, if any, that ends it.

The filesystem is a snapshot: a finite map from paths to entries.
- A path is the sequence of its components.
- An entry is either a regular file with a modification time, or a
  directory with its children in enumeration order.
- A path that is not a key of the map does not exist.

The spreadsheet reader and the writers are function parameters. A call to
either may fail.

Modules, in dependency order:
- `Results` (results.dfy): `Option` and `Result`.
- `PyStr` (pystr.dfy): ASCII `str.lower`, `str.rfind` and `str.isdigit`.
- `PathNames` (pathnames.dfy): `pathlib`'s join, `name` and `suffix`.
- `Resolver` (resolver.dfy) and `ResolverProperties` (resolver_properties.dfy).
- `SheetSelector` (sheet.dfy).
- `Pipeline` (pipeline.dfy) and `PipelineProperties` (pipeline_properties.dfy).

`Suffix` follows `pathlib` as in Python 3.13 and earlier. The suffix starts at the last dot, but only when
the stem before the dot is non-empty and the dot is not the last character.
So a file named just `.xlsx` has no suffix and is not a spreadsheet, and an
output path named just `.csv` is refused.

Ties on modification time are resolved as the code resolves them. Python's
`max` keeps the first maximal element, so among candidates sharing the newest
time, the one enumerated first is returned. The model follows the code and
proves this first-wins rule (`ResolverProperties.FirstNewestChosen`).

Some members exist only to support the proofs, and the table below leaves
them out:
- `ResolverProperties.ResolveDirectory`, `PipelineProperties.RunAfterResolve`
  and `PipelineProperties.ReadAndShowSteps` are proof helpers. Each one
  unfolds one branch of `Resolve`, `Run` or `ReadAndShow`.
- `ResolverProperties.InsertAt`, `ResolverProperties.WithEntry` and
  `ResolverProperties.WithEntryKeepsListed` build a snapshot with one more
  directory entry, at any position of the listing, and state that the other
  entries are unchanged. `NonCandidateIgnored` and `NewerExcelFileChosen`
  use them to compare a directory before and after an entry is added.
- `ResolverProperties.SampleSnapshot` is a fixed test snapshot for
  `SampleCandidates` and `DirectoryExample`.

## Model

| member | source | states |
|---|---|---|
| Resolver.IsFile | scripts/read_reservation_excel.py:17 | `p.is_file()`, used at lines 17 and 25: the path holds a regular file in the snapshot. `ResolverProperties.ExplicitFile` and `ResolverProperties.DirectoryResultIsListedCandidate` rely on it. |
| Resolver.IsDir | scripts/read_reservation_excel.py:22 | `p.is_dir()`: the path holds a directory in the snapshot. `ResolverProperties.MissingPath` covers a path that is neither a file nor a directory. |
| Resolver.Mtime | scripts/read_reservation_excel.py:29 | `p.stat().st_mtime`, defined only for a regular file. `Resolver.Newest` and `ResolverProperties.FirstNewestChosen` state the choice by it. |
| Resolver.ExcelSuffixes | scripts/read_reservation_excel.py:13 | The allow-list: ".xlsx", ".xls" and ".xlsm", all lower case. Its meaning as a name test is stated by `ResolverProperties.ExcelNameIff`. |
| Resolver.IsExcelName | scripts/read_reservation_excel.py:18 | `p.suffix.lower() in EXCEL_SUFFIXES`, the test shared by lines 18 and 25. `ResolverProperties.ExcelNameIff` proves it holds exactly when the name ends in an allowed extension, ignoring case, after a non-empty stem. `ResolverProperties.ExcelNameIgnoresCase` proves letter case does not matter. |
| Resolver.IsCandidate | scripts/read_reservation_excel.py:25 | The comprehension's test: `dir / name` is a regular file with an allowed suffix. `Resolver.Candidates` and `Resolver.CandidatesComplete` prove the candidate list holds exactly the listed names that pass it. `ResolverProperties.NonCandidateIgnored` proves an entry that fails it never changes the result. |
| Resolver.Resolve | scripts/read_reservation_excel.py:16-29 | A success is an existing regular file with an allowed suffix. "Not an Excel file" is raised only for a regular file, "No Excel files found" only for a directory. Every error carries the path it was given. |
| Resolver.Candidates | scripts/read_reservation_excel.py:25 | The comprehension keeps only qualifying entries. Each entry it keeps is `dir / name` for a listed name that is a regular file with an allowed suffix. Its entries are all regular files. |
| Resolver.CandidatesComplete | scripts/read_reservation_excel.py:25 | Every listed name that qualifies has its joined path in the candidate list. |
| Resolver.CandidatesAppend | scripts/read_reservation_excel.py:25 | Filtering a concatenated listing gives the concatenation of the filtered parts, so enumeration order is kept. |
| Resolver.NewestFrom | scripts/read_reservation_excel.py:29 | The left scan of `max` with a key returns an index whose time no candidate exceeds. Every candidate before it is strictly older. |
| Resolver.Newest | scripts/read_reservation_excel.py:29 | `max(candidates, key=mtime)` returns a newest candidate, and the first one among equals. |
| PyStr.LowerChar | scripts/read_reservation_excel.py:18 | An upper-case ASCII letter becomes the same letter in lower case, and every other character is unchanged. |
| PyStr.Lower | scripts/read_reservation_excel.py:18 | ASCII `str.lower()`, keeping the length. `PyStr.LowerFolds` proves it leaves no upper-case letter and changes no other character. `PyStr.LowerIdempotent` proves lowering twice is lowering once. |
| PyStr.IsDigits | scripts/read_reservation_excel.py:63 | ASCII `str.isdigit()`: a non-empty string of digits. `SheetSelector.Interpret` proves that a string becomes an index exactly when this test holds. |
| PyStr.RFind | scripts/read_reservation_excel.py:18 | The last position of a character, or -1. The character is at that position and not after it. |
| PyStr.LowerFolds | scripts/read_reservation_excel.py:18 | `lower()` leaves no upper-case ASCII letter and changes no other character. |
| PyStr.LowerIdempotent | scripts/read_reservation_excel.py:18 | Lowering twice is lowering once. |
| PyStr.RFindLower | scripts/read_reservation_excel.py:18 | Lowering moves no dot, so the suffix is found at the same position. |
| PathNames.Join | scripts/read_reservation_excel.py:25 | `path / name` for a listed child: one component longer, with `path` as its prefix and `name` as its last component. |
| PathNames.Name | scripts/read_reservation_excel.py:18 | `p.name`, whose suffix is tested: the last component, or empty for an empty path. |
| PathNames.Suffix | scripts/read_reservation_excel.py:18 | `pathlib`'s `suffix`, used at lines 18, 25, 79 and 81. `PathNames.SuffixShape` gives its shape. `PathNames.SuffixIsExtension` proves both directions of "the lowered suffix is the extension exactly when the name ends in it after a non-empty stem". `PathNames.SuffixOfLower` proves it commutes with lowering. |
| PathNames.SuffixShape | scripts/read_reservation_excel.py:18 | A suffix is empty, or it is a proper tail of the name that starts with its only dot and has at least one more character. |
| PathNames.SuffixOfLower | scripts/read_reservation_excel.py:18 | The suffix of the lowered name is the lowered suffix. |
| PathNames.SuffixIsExtension | scripts/read_reservation_excel.py:18 | For an extension such as ".xlsx", the lowered suffix equals it exactly when the name ends in it, ignoring case, after a non-empty stem. Both directions are proved. |
| PathNames.SuffixOfJoinedExtension | scripts/read_reservation_excel.py:18 | A non-empty stem followed by an extension has that extension as its suffix. |
| ResolverProperties.ExcelNameIff | scripts/read_reservation_excel.py:13-18 | The allow-list test holds exactly when the name ends in ".xlsx", ".xls" or ".xlsm", ignoring case, after a non-empty stem. |
| ResolverProperties.ExcelNameIgnoresCase | scripts/read_reservation_excel.py:18-25 | Names that differ only in letter case are accepted or refused alike. |
| ResolverProperties.ExcelNameExamples | scripts/read_reservation_excel.py:13-18 | "B.XLSM" and "c.xls" are accepted. "notes.txt" is refused, and so is a name that is only ".xlsx". |
| ResolverProperties.ExplicitFile | scripts/read_reservation_excel.py:17-20 | A regular file is returned unchanged exactly when its suffix is allowed, and otherwise fails with "Not an Excel file". Its modification time makes no difference. |
| ResolverProperties.MissingPath | scripts/read_reservation_excel.py:22-23 | A path that is neither a file nor a directory fails with "Path does not exist". |
| ResolverProperties.DirectoryResultIsListedCandidate | scripts/read_reservation_excel.py:25-29 | A directory's result is one of its listed children, one level down. It is a regular file with an allowed suffix, never a directory. |
| ResolverProperties.NoExcelFiles | scripts/read_reservation_excel.py:26-27 | A directory fails with "No Excel files found" exactly when none of its children qualifies. |
| ResolverProperties.CandidatesAround | scripts/read_reservation_excel.py:25 | The candidate list around a qualifying child: the candidates before it, then it, then those after it. |
| ResolverProperties.NewestIsFirstMaximal | scripts/read_reservation_excel.py:29 | `max` returns the candidate that no other exceeds and that every earlier candidate is strictly older than. |
| ResolverProperties.FirstNewestChosen | scripts/read_reservation_excel.py:29 | Among the newest qualifying children, the one enumerated first is returned. |
| ResolverProperties.NewestCandidateWins | scripts/read_reservation_excel.py:29 | When any child qualifies, the result exists and is at least as new as every qualifying child. |
| ResolverProperties.EarliestWithMtime | scripts/read_reservation_excel.py:29 | Among qualifying children with a given time, there is a first one. |
| ResolverProperties.ResolveMeetsSpec | scripts/read_reservation_excel.py:16-29 | `Resolve` meets a statement of the resolver that does not say how it computes. That statement gives the file case, the missing case, the empty-directory case, and the first newest qualifying child. |
| ResolverProperties.FirstNewestEntryIsUnique | scripts/read_reservation_excel.py:29 | At most one child is the first newest qualifying child. |
| ResolverProperties.ResolvedAsSpecifiedIsUnique | scripts/read_reservation_excel.py:16-29 | That statement determines the result: no two different results meet it. |
| ResolverProperties.CandidatesFrame | scripts/read_reservation_excel.py:25 | The candidate list depends only on the entries at the listed paths. |
| ResolverProperties.NewestFromFrame | scripts/read_reservation_excel.py:29 | The choice depends only on the entries of the candidates. |
| ResolverProperties.SameCandidatesSameResult | scripts/read_reservation_excel.py:25-29 | Two directories with the same candidates, holding the same entries, resolve alike. |
| ResolverProperties.NonCandidateIgnored | scripts/read_reservation_excel.py:25 | A new subdirectory, or a new file of another type however recent, leaves the result unchanged, wherever it appears in the listing. |
| ResolverProperties.NewerExcelFileChosen | scripts/read_reservation_excel.py:29 | A new spreadsheet strictly newer than every candidate is the one returned, wherever it appears in the listing. |
| ResolverProperties.SampleCandidates | scripts/read_reservation_excel.py:25 | In the sample directory the text file is dropped, and the two spreadsheets stay in listing order. |
| ResolverProperties.DirectoryExample | scripts/read_reservation_excel.py:25-29 | In the sample directory, of two spreadsheets with the same time as a text file, the first listed, "B.XLSM", is returned. |
| SheetSelector.DefaultSheet | scripts/read_reservation_excel.py:44 | The default `0` of `--sheet`. `SheetSelector.DefaultSelectsFirstSheet` proves it selects index 0 and is shown as "0". |
| SheetSelector.DigitValue | scripts/read_reservation_excel.py:64 | The value of one ASCII digit, below ten. `SheetSelector.DigitChar` is its inverse. |
| SheetSelector.DigitChar | scripts/read_reservation_excel.py:64 | The digit character of a value below ten reads back as that value. |
| SheetSelector.Decimal | scripts/read_reservation_excel.py:64 | `str(n)` is a digit string with no leading zero. |
| SheetSelector.Interpret | scripts/read_reservation_excel.py:62-66 | A string becomes an index exactly when `isdigit()` holds, and that index is not negative. Any other string is passed on as the same name. The integer default is passed on as that index. |
| SheetSelector.Show | scripts/read_reservation_excel.py:71 | The "Sheet:" line shows a string argument exactly as given. A non-negative number is shown as digits that read back as that number. |
| SheetSelector.DigitsValue | scripts/read_reservation_excel.py:64 | `int(s)` on a digit string. `SheetSelector.DigitsValueOfDecimal` and `SheetSelector.DecimalOfDigitsValue` prove it is the inverse of `str(n)` in both directions. |
| SheetSelector.DigitsValueOfDecimal | scripts/read_reservation_excel.py:64 | `int(str(n)) == n`. |
| SheetSelector.LeadingDigitPositive | scripts/read_reservation_excel.py:64 | A digit string that does not start with '0' has a positive value. |
| SheetSelector.DecimalOfDigitsValue | scripts/read_reservation_excel.py:64 | `str(int(s)) == s` for a digit string with no leading zero. |
| SheetSelector.LeadingZeroIgnored | scripts/read_reservation_excel.py:64 | `int("0" + s) == int(s)`: leading zeros do not change the index. |
| SheetSelector.PaddedIndexExample | scripts/read_reservation_excel.py:63-64 | "007" selects index 7. |
| SheetSelector.DecimalSelectsIndex | scripts/read_reservation_excel.py:63-64 | The decimal spelling of `n` selects sheet index `n`. |
| SheetSelector.ShowKeepsText | scripts/read_reservation_excel.py:63-71 | A digit string is interpreted as an index, but the "Sheet:" line still shows the string. |
| SheetSelector.DefaultSelectsFirstSheet | scripts/read_reservation_excel.py:44 | The default 0 selects the first sheet and is shown as "0". |
| SheetSelector.SelectorExamples | scripts/read_reservation_excel.py:62-66 | "2" becomes index 2. "Summary", "" and "-1" stay names. |
| Pipeline.BadOutputMessage | scripts/read_reservation_excel.py:84 | The error message for any other output suffix. `PipelineProperties.BadExtensionAfterPreview` and `PipelineProperties.ExportSteps` prove it is the error for that case. |
| Pipeline.OutputFormat | scripts/read_reservation_excel.py:79-84 | CSV is chosen exactly when the output name ends in ".csv", ignoring case, after a non-empty stem. JSON is chosen the same way for ".json". Nothing is chosen otherwise. |
| Pipeline.Preview | scripts/read_reservation_excel.py:70-75 | The preview is six console lines. |
| Pipeline.Export | scripts/read_reservation_excel.py:77-86 | The export step: check the suffix, write, confirm. `PipelineProperties.ExportSteps` proves it refuses before any write, writes at most once in the chosen format, confirms only a successful write, and ends a failed write with `WriteFailed` carrying the writer's error. |
| Pipeline.ReadAndShow | scripts/read_reservation_excel.py:62-86 | What runs after resolution: interpret the selector, read the sheet, print the preview, export. The `PipelineProperties` lemmas `LoadPrecedesPreview`, `LoadedLayout`, `PreviewAfterLoad`, `BadExtensionAfterPreview`, `NoOutputNoWrite`, `WriteOnlyToChosenFormat`, `SavedMeansWritten` and `FailureNamesCause` state which effects happen, in which order, and which error ends it. A load failure carries the loader's message, a write failure the writer's. |
| Pipeline.Run | scripts/read_reservation_excel.py:60-86 | `main` after argument parsing. The `PipelineProperties` lemmas `ResolveFailureComesFirst`, `RunPreviewAfterLoad`, `RunRefusesBadExtension`, `RunWritesOnlyChosenFormat`, `RunSavedMeansWritten`, `NormalExitIffAllStepsSucceed` and `RunFailureNamesCause` state its effect order and error cases, each failure naming the step that caused it. |
| PipelineProperties.UpperCaseJsonExample | scripts/read_reservation_excel.py:81 | "Report.JSON" selects JSON. |
| PipelineProperties.ExcelOutputExample | scripts/read_reservation_excel.py:79-84 | "bookings.xlsx" selects no format. |
| PipelineProperties.BareCsvExample | scripts/read_reservation_excel.py:79-84 | A name that is only ".csv" has no suffix and selects no format. |
| PipelineProperties.ResolveFailureComesFirst | scripts/read_reservation_excel.py:60 | A resolution failure ends the run with no effect at all: no read, no line, no write. |
| PipelineProperties.ExportSteps | scripts/read_reservation_excel.py:77-86 | The export step behaves as follows. With no format it fails with the fixed message and does nothing. Otherwise it writes once in the chosen format. It ends normally exactly when the write succeeds, and then prints a blank line and "Saved:". A failed write ends it right after the write, with `WriteFailed` carrying the writer's error. |
| PipelineProperties.LoadedLayout | scripts/read_reservation_excel.py:68-86 | After a load, the first seven effects neither write nor confirm, and the rest are exactly the export step's. |
| PipelineProperties.LoadPrecedesPreview | scripts/read_reservation_excel.py:68 | The resolved file is read first, with the interpreted selector. The run fails with a load error exactly when the read fails, and then nothing else happens. |
| PipelineProperties.PreviewAfterLoad | scripts/read_reservation_excel.py:70-75 | After a load, the preview lines follow in order: file, raw selector, shape, column names, blank line, head. |
| PipelineProperties.BadExtensionAfterPreview | scripts/read_reservation_excel.py:75-84 | A bad output suffix fails with "Output file must end with .csv or .json" after the seven effects of the read and the preview. Nothing is written, no "Saved:" line appears, and the writer makes no difference. |
| PipelineProperties.NoOutputNoWrite | scripts/read_reservation_excel.py:77 | Without `--output`, a loaded sheet gives exactly seven effects and a normal exit. |
| PipelineProperties.WriteOnlyToChosenFormat | scripts/read_reservation_excel.py:77-82 | A write is only the eighth effect. It goes to the requested path, in the format that path's suffix selects, and there is no other write. |
| PipelineProperties.SavedMeansWritten | scripts/read_reservation_excel.py:79-86 | "Saved:" appears exactly when an output was requested and the run ended normally. It is then the tenth and last effect, and the write of that path is the eighth. |
| PipelineProperties.FailureNamesCause | scripts/read_reservation_excel.py:68-86 | After resolution, a load failure carries the loader's error. The run ends with the bad-suffix error exactly when the sheet loaded and an output was requested whose suffix selects no format. A write failure means the sheet loaded, the suffix selected a format, and the writer returned that error. A resolution failure cannot occur at this stage. |
| PipelineProperties.RunWritesOnlyChosenFormat | scripts/read_reservation_excel.py:60-82 | Over a whole run, a write follows a successful resolution. It is the eighth effect, to the requested path, in the selected format. |
| PipelineProperties.RunSavedMeansWritten | scripts/read_reservation_excel.py:60-86 | Over a whole run, "Saved:" appears exactly when an output was requested and the run ended normally. |
| PipelineProperties.RunRefusesBadExtension | scripts/read_reservation_excel.py:60-84 | Over a whole run, a bad output suffix is refused after the preview, with nothing written. |
| PipelineProperties.RunPreviewAfterLoad | scripts/read_reservation_excel.py:60-75 | Over a whole run, once the file is loaded, the read and the six preview lines come first and in order. |
| PipelineProperties.RunFailureNamesCause | scripts/read_reservation_excel.py:60-86 | Over a whole run, a resolution failure carries the resolver's error. The bad-suffix error means the file resolved, the sheet loaded, and the requested output's suffix selects no format. A write failure means the file resolved, the sheet loaded, the suffix selected a format, and the writer returned that error for that table. |
| PipelineProperties.NormalExitIffAllStepsSucceed | scripts/read_reservation_excel.py:60-86 | A run ends normally exactly when the file resolves, the sheet loads, and, if an output was requested, its suffix selects a format and the write succeeds. |

## Left out

- pandas (`read_excel`, `head`, `to_string`, `to_csv`, `to_json`) is not part of this model. Loading and writing are function parameters that may fail. A table is reduced to its column names and its row count. The rendered rows and the CSV and JSON bytes are not specified.
- argparse is not modelled. Neither is the `int` coercion of `--rows`, or what `head` does with zero or negative row counts. `--rows` reaches the preview line unchanged.
- The filesystem calls (`is_file`, `is_dir`, `iterdir`, `stat`) are replaced by the snapshot. The order of a directory's children is an input. Symbolic links, permission errors and a file changing during the scan are not modelled.
- `expanduser` on `--path` and `--output` depends on the home directory and the environment. Paths are taken as already expanded.
- Modification times are floats in the source and integers here. Only their order matters.
- `PyStr.Lower` and `PyStr.IsDigits` are ASCII only. Python's `lower()` also folds other alphabets. Its `isdigit()` also accepts digits such as superscripts, on which `int()` then fails; that failure is not modelled. Non-ASCII decimal digits such as a fullwidth "２" pass both `isdigit()` and `int()` in Python and become an index, but the model keeps them as a name. Since Python 3.11, `int()` also raises an error on a digit string longer than 4300 digits, after resolution and before the load; the model returns an index instead.
- Resolver errors carry only the path, not the message text. Console lines carry their values, not their formatting. `DEFAULT_PATH` (line 12) is not modelled.
- A failed write is recorded as the attempted write, and the run ends with the writer's error. A partly written file is not modelled.
- `if args.output:` is modelled as "an output path was given", because a `Path` object is always true.
- The integer default is the only non-string selector argparse hands over. The model allows any integer there and passes it on unchanged, as the code does.
