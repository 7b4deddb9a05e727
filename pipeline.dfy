/**
 * `main` after argument parsing: resolve the spreadsheet, interpret the sheet
 * selector, load the sheet, print the preview, then check the output
 * extension and write the table. The run is a value: the effects it performs
 * in order and the error, if any, that ends it.
 */
module Pipeline {
  import opened Results
  import opened PyStr
  import opened PathNames
  import opened Resolver
  import opened SheetSelector

  /** The parsed command line: `--path`, `--sheet`, `--rows` and the optional `--output`. */
  datatype Args = Args(path: Path, sheet: RawSheet, rows: int, output: Option<Path>)

  /** A loaded sheet, reduced to what the script itself looks at: its column names and its number of rows. */
  datatype Table = Table(columns: seq<string>, rowCount: nat)

  /** The two export formats. */
  datatype Format = Csv | Json

  /** An effect of a run, in the order performed: one read of the sheet, console lines, one write. */
  datatype Effect =
    | ReadSheet(file: Path, sheet: Sheet)
    | ShowFile(file: Path)
    | ShowSheet(text: string)
    | ShowShape(rows: nat, columns: nat)
    | ShowColumns(names: seq<string>)
    | ShowBlank
    | ShowPreview(limit: int)
    | WriteTable(target: Path, format: Format)
    | ShowSaved(target: Path)

  /** The errors that end a run. */
  datatype Failure =
    | ResolveFailed(error: ResolveError)
    | LoadFailed(message: string)
    | BadOutputExtension(message: string)
    | WriteFailed(message: string)

  /** What a run did, and how it ended (`None` is a normal exit). */
  datatype Outcome = Outcome(effects: seq<Effect>, failure: Option<Failure>)

  /** `pd.read_excel(file, sheet_name=sheet)`: a table, or the reader's error. */
  type Loader = (Path, Sheet) -> Result<Table, string>

  /** `to_csv` / `to_json` on the output path: `None` on success, or the writer's error. */
  type Writer = (Path, Format, Table) -> Option<string>

  /** The message raised for any other output extension. */
  const BadOutputMessage: string := "Output file must end with .csv or .json"

  /**
   * The export format chosen from the lowered suffix of the output path:
   * ".csv", ".json", or none. Either format is chosen exactly when the name
   * ends, ignoring case, in that extension after a non-empty stem.
   */
  function OutputFormat(target: Path): (f: Option<Format>)
    ensures f == Some(Csv) <==> EndsWithExtension(Name(target), ".csv")
    ensures f == Some(Json) <==> EndsWithExtension(Name(target), ".json")
  {
    assert IsExtension(".csv") && IsExtension(".json");
    SuffixIsExtension(Name(target), ".csv");
    SuffixIsExtension(Name(target), ".json");
    var ext := Lower(Suffix(Name(target)));
    if ext == ".csv" then Some(Csv)
    else if ext == ".json" then Some(Json)
    else None
  }

  /** The console lines of the preview, in order: file, raw sheet argument, shape, column names, a blank line, the head of the table. */
  function Preview(file: Path, raw: RawSheet, t: Table, rows: int): (lines: seq<Effect>)
    ensures |lines| == 6
  {
    [ShowFile(file), ShowSheet(Show(raw)), ShowShape(t.rowCount, |t.columns|),
     ShowColumns(t.columns), ShowBlank, ShowPreview(rows)]
  }

  /** The output step, after the preview: check the extension, write, confirm. */
  function Export(target: Path, t: Table, write: Writer): (o: Outcome)
  {
    match OutputFormat(target)
    case None => Outcome([], Some(BadOutputExtension(BadOutputMessage)))
    case Some(format) =>
      match write(target, format, t)
      case Some(m) => Outcome([WriteTable(target, format)], Some(WriteFailed(m)))
      case None => Outcome([WriteTable(target, format), ShowBlank, ShowSaved(target)], None)
  }

  /** The steps after resolution: read the sheet, print the preview, then export if asked to. */
  function ReadAndShow(file: Path, args: Args, load: Loader, write: Writer): (o: Outcome)
  {
    var sheet := Interpret(args.sheet);
    var read := [ReadSheet(file, sheet)];
    match load(file, sheet)
    case Err(m) => Outcome(read, Some(LoadFailed(m)))
    case Ok(t) =>
      var rest := if args.output.None? then Outcome([], None) else Export(args.output.value, t, write);
      Outcome(read + Preview(file, args.sheet, t, args.rows) + rest.effects, rest.failure)
  }

  /** One run of the script on a filesystem snapshot, with the reader and the writer as parameters. */
  function Run(fs: FileSystem, args: Args, load: Loader, write: Writer): (o: Outcome)
  {
    match Resolve(fs, args.path)
    case Err(e) => Outcome([], Some(ResolveFailed(e)))
    case Ok(file) => ReadAndShow(file, args, load, write)
  }
}
