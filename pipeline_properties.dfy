/**
 * What a run promises: which error ends it, and which effects precede that
 * error.
 */
module PipelineProperties {
  import opened Results
  import opened PyStr
  import opened PathNames
  import opened Resolver
  import opened SheetSelector
  import opened Pipeline

  /** A concrete output path: the suffix is matched ignoring case. */
  lemma UpperCaseJsonExample()
    ensures OutputFormat(["out", "Report.JSON"]) == Some(Json)
  {
    RFindAt("Report.JSON", '.', 6);
    assert Suffix("Report.JSON") == ".JSON";
    assert Lower(".JSON") == ".json";
  }

  /** A concrete output path: an Excel extension is no export format. */
  lemma ExcelOutputExample()
    ensures OutputFormat(["bookings.xlsx"]) == None
  {
    RFindAt("bookings.xlsx", '.', 8);
    assert Suffix("bookings.xlsx") == ".xlsx";
    assert Lower(".xlsx")[1] == 'x';
  }

  /** A concrete output path: a name that is only ".csv" has no suffix, so it is refused. */
  lemma BareCsvExample()
    ensures OutputFormat([".csv"]) == None
  {
    RFindAt(".csv", '.', 0);
  }

  /** `e` is one of the console lines the preview prints. */
  predicate IsPreviewLine(e: Effect) {
    e.ShowFile? || e.ShowSheet? || e.ShowShape? || e.ShowColumns? || e.ShowBlank? || e.ShowPreview?
  }

  /** A failed resolution ends the run before the sheet is read or anything is printed. */
  lemma ResolveFailureComesFirst(fs: FileSystem, args: Args, load: Loader, write: Writer)
    requires Resolve(fs, args.path).Err?
    ensures Run(fs, args, load, write) == Outcome([], Some(ResolveFailed(Resolve(fs, args.path).error)))
  {
  }

  /** After a successful resolution the run continues with the resolved file. */
  lemma RunAfterResolve(fs: FileSystem, args: Args, load: Loader, write: Writer)
    requires Resolve(fs, args.path).Ok?
    ensures Run(fs, args, load, write) == ReadAndShow(Resolve(fs, args.path).value, args, load, write)
  {
  }

  /** The export step writes at most once, only in the format the suffix selects, and confirms only a successful write. */
  lemma ExportSteps(target: Path, t: Table, write: Writer)
    ensures var o := Export(target, t, write);
      && (OutputFormat(target).None? ==> o == Outcome([], Some(BadOutputExtension(BadOutputMessage))))
      && (OutputFormat(target).Some? ==>
            && |o.effects| >= 1
            && o.effects[0] == WriteTable(target, OutputFormat(target).value)
            && (o.failure.None? <==> write(target, OutputFormat(target).value, t).None?)
            && (o.failure.None? ==> o.effects == [o.effects[0], ShowBlank, ShowSaved(target)])
            && (o.failure.Some? ==> |o.effects| == 1)
            && (o.failure.Some? ==> o.failure == Some(WriteFailed(write(target, OutputFormat(target).value, t).value))))
  {
  }

  /** After a successful read, the effects start with the read and the six preview lines, and the rest is the export step's. */
  lemma ReadAndShowSteps(file: Path, args: Args, load: Loader, write: Writer)
    requires load(file, Interpret(args.sheet)).Ok?
    ensures var t := load(file, Interpret(args.sheet)).value;
      var o := ReadAndShow(file, args, load, write);
      var rest := if args.output.None? then Outcome([], None) else Export(args.output.value, t, write);
      o == Outcome([ReadSheet(file, Interpret(args.sheet))] + Preview(file, args.sheet, t, args.rows) + rest.effects, rest.failure)
  {
  }

  /** After a successful read: seven effects that neither write nor confirm, then exactly the export step's effects. */
  lemma LoadedLayout(file: Path, args: Args, load: Loader, write: Writer)
    requires load(file, Interpret(args.sheet)).Ok?
    ensures var t := load(file, Interpret(args.sheet)).value;
      var o := ReadAndShow(file, args, load, write);
      var rest := if args.output.None? then Outcome([], None) else Export(args.output.value, t, write);
      && |o.effects| == 7 + |rest.effects|
      && o.failure == rest.failure
      && (forall j :: 0 <= j < 7 ==> o.effects[j].ReadSheet? || IsPreviewLine(o.effects[j]))
      && (forall j :: 7 <= j < |o.effects| ==> o.effects[j] == rest.effects[j - 7])
  {
    var t := load(file, Interpret(args.sheet)).value;
    ReadAndShowSteps(file, args, load, write);
    var o := ReadAndShow(file, args, load, write);
    var pre := [ReadSheet(file, Interpret(args.sheet))] + Preview(file, args.sheet, t, args.rows);
    assert forall j :: 0 <= j < 7 ==> o.effects[j] == pre[j];
  }

  /**
   * The resolved file is read once, with the interpreted selector; a failed
   * read ends the run with no console line printed.
   */
  lemma LoadPrecedesPreview(file: Path, args: Args, load: Loader, write: Writer)
    ensures var o := ReadAndShow(file, args, load, write);
      && |o.effects| >= 1 && o.effects[0] == ReadSheet(file, Interpret(args.sheet))
      && (load(file, Interpret(args.sheet)).Err? <==> o.failure.Some? && o.failure.value.LoadFailed?)
      && (load(file, Interpret(args.sheet)).Err? ==> |o.effects| == 1)
  {
    var t := load(file, Interpret(args.sheet));
    if t.Ok? && args.output.Some? {
      ExportSteps(args.output.value, t.value, write);
    }
  }

  /**
   * Once the sheet is loaded, the preview is printed in full and in order
   * whatever follows: the file, the raw selector as given (not the
   * interpreted one), the shape, the column names, a blank line, the head.
   */
  lemma PreviewAfterLoad(file: Path, args: Args, load: Loader, write: Writer)
    requires load(file, Interpret(args.sheet)).Ok?
    ensures var t := load(file, Interpret(args.sheet)).value;
      var o := ReadAndShow(file, args, load, write);
      && |o.effects| >= 7
      && o.effects[1] == ShowFile(file)
      && o.effects[2] == ShowSheet(Show(args.sheet))
      && o.effects[3] == ShowShape(t.rowCount, |t.columns|)
      && o.effects[4] == ShowColumns(t.columns)
      && o.effects[5] == ShowBlank
      && o.effects[6] == ShowPreview(args.rows)
      && (forall k :: 1 <= k < 7 ==> IsPreviewLine(o.effects[k]))
  {
    ReadAndShowSteps(file, args, load, write);
  }

  /**
   * An output path whose lowered suffix is neither ".csv" nor ".json" fails
   * after the preview has been printed, with nothing written and no
   * "Saved:" line, whatever the writer would have done.
   */
  lemma BadExtensionAfterPreview(file: Path, args: Args, load: Loader, write: Writer, other: Writer)
    requires load(file, Interpret(args.sheet)).Ok?
    requires args.output.Some? && OutputFormat(args.output.value).None?
    ensures var o := ReadAndShow(file, args, load, write);
      && o.failure == Some(BadOutputExtension(BadOutputMessage))
      && |o.effects| == 7
      && (forall k :: 0 <= k < |o.effects| ==> !o.effects[k].WriteTable? && !o.effects[k].ShowSaved?)
      && o == ReadAndShow(file, args, load, other)
  {
    var t := load(file, Interpret(args.sheet)).value;
    ExportSteps(args.output.value, t, write);
    ExportSteps(args.output.value, t, other);
  }

  /** Without `--output` a loaded sheet gives exactly the read and the preview, and a normal exit. */
  lemma NoOutputNoWrite(file: Path, args: Args, load: Loader, write: Writer)
    requires args.output.None?
    requires load(file, Interpret(args.sheet)).Ok?
    ensures var o := ReadAndShow(file, args, load, write);
      o.failure.None? && |o.effects| == 7
  {
  }

  /**
   * A write happens at most once, right after the preview, only to the
   * requested output path and only in the format its suffix selects.
   */
  lemma WriteOnlyToChosenFormat(file: Path, args: Args, load: Loader, write: Writer, k: nat)
    requires k < |ReadAndShow(file, args, load, write).effects|
    requires ReadAndShow(file, args, load, write).effects[k].WriteTable?
    ensures var o := ReadAndShow(file, args, load, write);
      && k == 7
      && args.output == Some(o.effects[k].target)
      && OutputFormat(o.effects[k].target) == Some(o.effects[k].format)
      && (forall j :: 0 <= j < |o.effects| && j != k ==> !o.effects[j].WriteTable?)
  {
    LoadPrecedesPreview(file, args, load, write);
    var r := load(file, Interpret(args.sheet));
    if r.Ok? {
      LoadedLayout(file, args, load, write);
      ExportSteps(args.output.value, r.value, write);
    }
  }

  /**
   * The "Saved:" line is printed exactly when an output path was given and
   * the run ended normally; it is the last effect and follows the write of
   * that path.
   */
  lemma SavedMeansWritten(file: Path, args: Args, load: Loader, write: Writer)
    ensures var o := ReadAndShow(file, args, load, write);
      (exists k :: 0 <= k < |o.effects| && o.effects[k].ShowSaved?) <==> (args.output.Some? && o.failure.None?)
    ensures var o := ReadAndShow(file, args, load, write);
      args.output.Some? && o.failure.None? ==>
        && |o.effects| == 10
        && o.effects[9] == ShowSaved(args.output.value)
        && o.effects[7] == WriteTable(args.output.value, OutputFormat(args.output.value).value)
  {
    var o := ReadAndShow(file, args, load, write);
    var r := load(file, Interpret(args.sheet));
    if r.Ok? {
      LoadedLayout(file, args, load, write);
      if args.output.Some? {
        ExportSteps(args.output.value, r.value, write);
        if o.failure.None? {
          assert o.effects[9].ShowSaved?;
        }
      }
    }
  }

  /**
   * Each error that ends the steps after resolution names its cause: a
   * failed read, an output suffix that selects no format, or a failed
   * write with the writer's own error.
   */
  lemma FailureNamesCause(file: Path, args: Args, load: Loader, write: Writer)
    ensures var o := ReadAndShow(file, args, load, write);
      var r := load(file, Interpret(args.sheet));
      && (o.failure.Some? && o.failure.value.LoadFailed? ==> r == Err(o.failure.value.message))
      && (o.failure == Some(BadOutputExtension(BadOutputMessage)) <==>
            r.Ok? && args.output.Some? && OutputFormat(args.output.value).None?)
      && (o.failure.Some? && o.failure.value.WriteFailed? ==>
            && r.Ok? && args.output.Some? && OutputFormat(args.output.value).Some?
            && write(args.output.value, OutputFormat(args.output.value).value, r.value)
                 == Some(o.failure.value.message))
      && !(o.failure.Some? && o.failure.value.ResolveFailed?)
  {
    var r := load(file, Interpret(args.sheet));
    if r.Ok? {
      LoadedLayout(file, args, load, write);
      if args.output.Some? {
        ExportSteps(args.output.value, r.value, write);
      }
    }
  }

  /**
   * Over a whole run: each error names its cause, so a refused output suffix
   * is never a failed write, and the other way round.
   */
  lemma RunFailureNamesCause(fs: FileSystem, args: Args, load: Loader, write: Writer)
    ensures var o := Run(fs, args, load, write);
      && (o.failure.Some? && o.failure.value.ResolveFailed? ==> Resolve(fs, args.path) == Err(o.failure.value.error))
      && (o.failure == Some(BadOutputExtension(BadOutputMessage)) ==>
            && Resolve(fs, args.path).Ok?
            && load(Resolve(fs, args.path).value, Interpret(args.sheet)).Ok?
            && args.output.Some? && OutputFormat(args.output.value).None?)
      && (o.failure.Some? && o.failure.value.WriteFailed? ==>
            && Resolve(fs, args.path).Ok?
            && load(Resolve(fs, args.path).value, Interpret(args.sheet)).Ok?
            && args.output.Some? && OutputFormat(args.output.value).Some?
            && write(args.output.value, OutputFormat(args.output.value).value,
                     load(Resolve(fs, args.path).value, Interpret(args.sheet)).value)
                 == Some(o.failure.value.message))
  {
    if Resolve(fs, args.path).Ok? {
      RunAfterResolve(fs, args, load, write);
      FailureNamesCause(Resolve(fs, args.path).value, args, load, write);
    }
  }

  /**
   * Over a whole run: a write is attempted only after the spreadsheet was
   * resolved, and then only as the step right after the read and the
   * preview, to the requested path, in the format its suffix selects.
   */
  lemma RunWritesOnlyChosenFormat(fs: FileSystem, args: Args, load: Loader, write: Writer, k: nat)
    requires k < |Run(fs, args, load, write).effects|
    requires Run(fs, args, load, write).effects[k].WriteTable?
    ensures var o := Run(fs, args, load, write);
      && Resolve(fs, args.path).Ok?
      && k == 7
      && args.output == Some(o.effects[k].target)
      && OutputFormat(o.effects[k].target) == Some(o.effects[k].format)
  {
    if Resolve(fs, args.path).Ok? {
      RunAfterResolve(fs, args, load, write);
      WriteOnlyToChosenFormat(Resolve(fs, args.path).value, args, load, write, k);
    }
  }

  /** Over a whole run: the "Saved:" line appears exactly when an output path was given and the run ended normally. */
  lemma RunSavedMeansWritten(fs: FileSystem, args: Args, load: Loader, write: Writer)
    ensures var o := Run(fs, args, load, write);
      (exists k :: 0 <= k < |o.effects| && o.effects[k].ShowSaved?) <==> (args.output.Some? && o.failure.None?)
  {
    if Resolve(fs, args.path).Ok? {
      RunAfterResolve(fs, args, load, write);
      SavedMeansWritten(Resolve(fs, args.path).value, args, load, write);
    }
  }

  /**
   * Over a whole run: an output path with any other extension is refused
   * only after the preview, and nothing is written.
   */
  lemma RunRefusesBadExtension(fs: FileSystem, args: Args, load: Loader, write: Writer)
    requires Resolve(fs, args.path).Ok?
    requires load(Resolve(fs, args.path).value, Interpret(args.sheet)).Ok?
    requires args.output.Some? && OutputFormat(args.output.value).None?
    ensures var o := Run(fs, args, load, write);
      && o.failure == Some(BadOutputExtension(BadOutputMessage))
      && |o.effects| == 7
      && (forall k :: 0 <= k < |o.effects| ==> !o.effects[k].WriteTable? && !o.effects[k].ShowSaved?)
  {
    RunAfterResolve(fs, args, load, write);
    BadExtensionAfterPreview(Resolve(fs, args.path).value, args, load, write, write);
  }

  /**
   * Over a whole run: once the resolved file is loaded, the read comes
   * first and the six preview lines follow it, whatever the export step does.
   */
  lemma RunPreviewAfterLoad(fs: FileSystem, args: Args, load: Loader, write: Writer)
    requires Resolve(fs, args.path).Ok?
    requires load(Resolve(fs, args.path).value, Interpret(args.sheet)).Ok?
    ensures var file := Resolve(fs, args.path).value;
      var t := load(file, Interpret(args.sheet)).value;
      var o := Run(fs, args, load, write);
      && |o.effects| >= 7
      && o.effects[0] == ReadSheet(file, Interpret(args.sheet))
      && o.effects[1] == ShowFile(file)
      && o.effects[2] == ShowSheet(Show(args.sheet))
      && o.effects[3] == ShowShape(t.rowCount, |t.columns|)
      && o.effects[4] == ShowColumns(t.columns)
      && o.effects[5] == ShowBlank
      && o.effects[6] == ShowPreview(args.rows)
  {
    RunAfterResolve(fs, args, load, write);
    LoadPrecedesPreview(Resolve(fs, args.path).value, args, load, write);
    PreviewAfterLoad(Resolve(fs, args.path).value, args, load, write);
  }

  /** A run ends normally exactly when every step it takes succeeds. */
  lemma NormalExitIffAllStepsSucceed(fs: FileSystem, args: Args, load: Loader, write: Writer)
    ensures Run(fs, args, load, write).failure.None? <==>
      && Resolve(fs, args.path).Ok?
      && load(Resolve(fs, args.path).value, Interpret(args.sheet)).Ok?
      && (args.output.Some? ==>
            && OutputFormat(args.output.value).Some?
            && write(args.output.value, OutputFormat(args.output.value).value,
                     load(Resolve(fs, args.path).value, Interpret(args.sheet)).value).None?)
  {
    if Resolve(fs, args.path).Ok? {
      RunAfterResolve(fs, args, load, write);
      var t := load(Resolve(fs, args.path).value, Interpret(args.sheet));
      if t.Ok? && args.output.Some? {
        ExportSteps(args.output.value, t.value, write);
      }
    }
  }
}
