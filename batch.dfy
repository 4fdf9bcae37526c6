/**
 * The batch driver `csv2template`: it checks the template's type, selects the
 * CSV files of the input directory, and for each one copies the template to
 * the file's output path (or skips an existing output), loads the CSV, writes
 * it into the copy, and on any failure after the copy deletes the output and
 * records the file as failed.
 */
module Batch {
  import opened Wrappers
  import opened Strings
  import opened Paths
  import opened Loader
  import opened Disk

  /**
   * The parameters of one run. `read` stands for the CSV reader applied to a
   * file's bytes (None: it raised); `write` stands for opening the copied
   * workbook, pasting the loaded grid into the target sheet, restoring its
   * formatting and saving (None: one of these raised). The target sheet name
   * and the editable column ids are parameters of `write`.
   */
  datatype Config = Config(
    templatePath: string,
    outputDir: string,
    columnsToInt: seq<int>,
    skipExisting: bool,
    read: Bytes -> Option<Table>,
    write: (Bytes, Grid) -> Option<Bytes>)

  /** What became of one input file. */
  datatype FileOutcome =
    | Skipped      // the output existed and skipping was asked for
    | CopyRaised   // preparing the copy raised: nothing was written and nothing is recorded
    | Failed       // a later step raised: the output was deleted and the file is recorded as failed
    | Converted    // the output holds the converted workbook

  /** What a run reports. */
  datatype Report =
    | WrongTemplateType   // the template's last '.'-segment is not "xlsx"
    | NoCsvFiles          // the input directory lists no CSV file
    | Finished(failed: seq<string>)

  /** The output path of one input file. */
  function OutputOf(csvFile: string, cfg: Config): string {
    OutputPath(csvFile, cfg.templatePath, cfg.outputDir)
  }

  /** Loading the CSV file and writing it into `workbook`: the saved workbook, or None if a step raised. */
  function Convert(fs: Files, csvFile: string, workbook: Bytes, cfg: Config): (r: Option<Bytes>)
    ensures csvFile !in fs ==> r.None?
    ensures csvFile in fs && cfg.read(fs[csvFile]).None? ==> r.None?
    ensures csvFile in fs && cfg.read(fs[csvFile]).Some? && !ColumnsExist(cfg.read(fs[csvFile]).value, cfg.columnsToInt) ==> r.None?
    ensures csvFile in fs && cfg.read(fs[csvFile]).Some? && ColumnsExist(cfg.read(fs[csvFile]).value, cfg.columnsToInt) ==>
      r == cfg.write(workbook, LoadCsv(cfg.read(fs[csvFile]).value, cfg.columnsToInt).value)
  {
    if csvFile !in fs then None
    else match cfg.read(fs[csvFile])
      case None => None
      case Some(table) =>
        match LoadCsv(table, cfg.columnsToInt)
        case None => None
        case Some(grid) => cfg.write(workbook, grid)
  }

  /** One pass of the loop body of `csv2template` (its `try` block and `except` handler) on the file system. */
  function Step(fs: Files, csvFile: string, cfg: Config): (r: (Files, FileOutcome))
    ensures r.1 == Skipped <==> cfg.skipExisting && OutputOf(csvFile, cfg) in fs
    ensures r.1 == CopyRaised <==> !r.1.Skipped? && (cfg.templatePath !in fs || cfg.templatePath == OutputOf(csvFile, cfg))
    ensures r.1 == Skipped || r.1 == CopyRaised ==> r.0 == fs
    ensures r.1 == Failed ==> OutputOf(csvFile, cfg) !in r.0
    ensures r.1 == Converted ==> OutputOf(csvFile, cfg) in r.0
    ensures r.0 - {OutputOf(csvFile, cfg)} == fs - {OutputOf(csvFile, cfg)}
    ensures !(cfg.skipExisting && OutputOf(csvFile, cfg) in fs) && cfg.templatePath in fs && cfg.templatePath != OutputOf(csvFile, cfg) ==>
      (r.1 == Failed <==> Convert(fs[OutputOf(csvFile, cfg) := fs[cfg.templatePath]], csvFile, fs[cfg.templatePath], cfg).None?)
    ensures r.1 == Converted ==>
      Convert(fs[OutputOf(csvFile, cfg) := fs[cfg.templatePath]], csvFile, fs[cfg.templatePath], cfg) == Some(r.0[OutputOf(csvFile, cfg)])
  {
    var out := OutputOf(csvFile, cfg);
    if cfg.skipExisting && out in fs then (fs, Skipped)
    else if cfg.templatePath !in fs || cfg.templatePath == out then (fs, CopyRaised)
    else
      var copied := fs[out := fs[cfg.templatePath]];
      match Convert(copied, csvFile, copied[out], cfg)
      case Some(saved) => (copied[out := saved], Converted)
      case None => (copied - {out}, Failed)
  }

  /** The loop of `csv2template` over `csvFiles`: the final file system and the failed files, in order. */
  function Batch(fs: Files, csvFiles: seq<string>, cfg: Config): (r: (Files, seq<string>))
    decreases |csvFiles|
  {
    if csvFiles == [] then (fs, [])
    else
      var previous := Batch(fs, csvFiles[..|csvFiles| - 1], cfg);
      var last := csvFiles[|csvFiles| - 1];
      var step := Step(previous.0, last, cfg);
      (step.0, if step.1 == Failed then previous.1 + [last] else previous.1)
  }

  /** One more input file: the run over the first k + 1 files is the run over the first k followed by one step. */
  lemma BatchPrefix(fs: Files, csvFiles: seq<string>, k: nat, cfg: Config)
    requires k < |csvFiles|
    ensures Batch(fs, csvFiles[..k + 1], cfg) ==
      var previous := Batch(fs, csvFiles[..k], cfg);
      var step := Step(previous.0, csvFiles[k], cfg);
      (step.0, if step.1 == Failed then previous.1 + [csvFiles[k]] else previous.1)
  {
    assert csvFiles[..k + 1][..k] == csvFiles[..k];
  }

  /** `csv2template` as a whole: the final file system and the report. */
  function Csv2TemplateSpec(fs: Files, csvDir: string, listing: seq<string>, cfg: Config): (r: (Files, Report))
    ensures r.1 == WrongTemplateType <==> AfterLast(cfg.templatePath, '.') != "xlsx"
    ensures r.1 == NoCsvFiles <==> AfterLast(cfg.templatePath, '.') == "xlsx" && GetFiles(csvDir, listing, "csv") == []
    ensures !r.1.Finished? ==> r.0 == fs
  {
    if AfterLast(cfg.templatePath, '.') != "xlsx" then (fs, WrongTemplateType)
    else
      var csvFiles := GetFiles(csvDir, listing, "csv");
      if |csvFiles| == 0 then (fs, NoCsvFiles)
      else
        var run := Batch(fs, csvFiles, cfg);
        (run.0, Finished(run.1))
  }

  /** Only output paths change: a path that is no file's output keeps its contents, or its absence. */
  lemma {:induction false} BatchTouchesOnlyOutputs(fs: Files, csvFiles: seq<string>, cfg: Config, p: string)
    requires forall f :: f in csvFiles ==> p != OutputOf(f, cfg)
    ensures p in Batch(fs, csvFiles, cfg).0 <==> p in fs
    ensures p in fs ==> Batch(fs, csvFiles, cfg).0[p] == fs[p]
    decreases |csvFiles|
  {
    if csvFiles != [] {
      var init := csvFiles[..|csvFiles| - 1];
      var last := csvFiles[|csvFiles| - 1];
      assert forall f :: f in init ==> f in csvFiles;
      BatchTouchesOnlyOutputs(fs, init, cfg, p);
      var before := Batch(fs, init, cfg).0;
      var after := Step(before, last, cfg).0;
      assert after - {OutputOf(last, cfg)} == before - {OutputOf(last, cfg)};
      assert p in after <==> p in after - {OutputOf(last, cfg)};
      assert p in before <==> p in before - {OutputOf(last, cfg)};
    }
  }

  /** Every recorded failure is one of the input files, in input order, each at most once per occurrence. */
  lemma {:induction false} BatchFailedAreInputs(fs: Files, csvFiles: seq<string>, cfg: Config)
    ensures |Batch(fs, csvFiles, cfg).1| <= |csvFiles|
    ensures forall f :: f in Batch(fs, csvFiles, cfg).1 ==> f in csvFiles
    decreases |csvFiles|
  {
    if csvFiles != [] {
      var init := csvFiles[..|csvFiles| - 1];
      BatchFailedAreInputs(fs, init, cfg);
      assert forall f :: f in init ==> f in csvFiles;
    }
  }

  /** With skipping on and every output already present, a run changes no file and reports no failure. */
  lemma {:induction false} BatchSkipExisting(fs: Files, csvFiles: seq<string>, cfg: Config)
    requires cfg.skipExisting
    requires forall f :: f in csvFiles ==> OutputOf(f, cfg) in fs
    ensures Batch(fs, csvFiles, cfg) == (fs, [])
    decreases |csvFiles|
  {
    if csvFiles != [] {
      var init := csvFiles[..|csvFiles| - 1];
      assert forall f :: f in init ==> f in csvFiles;
      BatchSkipExisting(fs, init, cfg);
      assert csvFiles[|csvFiles| - 1] in csvFiles;
    }
  }

  /** When the template is missing every copy raises, so no file changes and no failure is recorded. */
  lemma {:induction false} BatchTemplateMissing(fs: Files, csvFiles: seq<string>, cfg: Config)
    requires cfg.templatePath !in fs
    ensures Batch(fs, csvFiles, cfg) == (fs, [])
    decreases |csvFiles|
  {
    if csvFiles != [] {
      BatchTemplateMissing(fs, csvFiles[..|csvFiles| - 1], cfg);
    }
  }

  /**
   * When no two inputs share an output path, the output of every file
   * recorded as failed is absent at the end, although it existed mid-run.
   */
  lemma {:induction false} BatchFailedOutputsRemoved(fs: Files, csvFiles: seq<string>, cfg: Config, f: string)
    requires forall a, b :: 0 <= a < b < |csvFiles| ==> OutputOf(csvFiles[a], cfg) != OutputOf(csvFiles[b], cfg)
    requires f in Batch(fs, csvFiles, cfg).1
    ensures OutputOf(f, cfg) !in Batch(fs, csvFiles, cfg).0
    decreases |csvFiles|
  {
    var init := csvFiles[..|csvFiles| - 1];
    if f in Batch(fs, init, cfg).1 {
      BatchFailedAreInputs(fs, init, cfg);
      var a :| 0 <= a < |init| && init[a] == f;
      DistinctOutputsPrefix(csvFiles, cfg, a);
      BatchFailedOutputsRemoved(fs, init, cfg, f);
      BatchEarlierFile(fs, csvFiles, cfg, f);
    } else {
      BatchNewFailure(fs, csvFiles, cfg, f);
    }
  }

  /** A failure that the last step adds is the last input, and that step left its output absent. */
  lemma BatchNewFailure(fs: Files, csvFiles: seq<string>, cfg: Config, f: string)
    requires csvFiles != []
    requires f in Batch(fs, csvFiles, cfg).1 && f !in Batch(fs, csvFiles[..|csvFiles| - 1], cfg).1
    ensures f == csvFiles[|csvFiles| - 1] && OutputOf(f, cfg) !in Batch(fs, csvFiles, cfg).0
  {
  }

  /**
   * When no two inputs share an output path and the template is present and
   * is no input's output, the failed list names exactly the inputs whose
   * output is absent at the end: a file is recorded as failed if and only if
   * its processing raised after the copy.
   */
  lemma {:induction false} BatchFailedExactly(fs: Files, csvFiles: seq<string>, cfg: Config, f: string)
    requires forall a, b :: 0 <= a < b < |csvFiles| ==> OutputOf(csvFiles[a], cfg) != OutputOf(csvFiles[b], cfg)
    requires cfg.templatePath in fs
    requires forall g :: g in csvFiles ==> cfg.templatePath != OutputOf(g, cfg)
    requires f in csvFiles
    ensures f in Batch(fs, csvFiles, cfg).1 <==> OutputOf(f, cfg) !in Batch(fs, csvFiles, cfg).0
    decreases |csvFiles|
  {
    var n := |csvFiles|;
    var a :| 0 <= a < n && csvFiles[a] == f;
    if a == n - 1 {
      BatchLastFailed(fs, csvFiles, cfg);
    } else {
      DistinctOutputsPrefix(csvFiles, cfg, a);
      BatchFailedExactly(fs, csvFiles[..n - 1], cfg, f);
      BatchEarlierFile(fs, csvFiles, cfg, f);
    }
  }

  /** Distinct outputs stay distinct on the inputs before the last, and an earlier input differs from the last in file and output. */
  lemma DistinctOutputsPrefix(csvFiles: seq<string>, cfg: Config, a: int)
    requires forall a, b :: 0 <= a < b < |csvFiles| ==> OutputOf(csvFiles[a], cfg) != OutputOf(csvFiles[b], cfg)
    requires 0 <= a < |csvFiles| - 1
    ensures var init := csvFiles[..|csvFiles| - 1];
      && (forall x, y :: 0 <= x < y < |init| ==> OutputOf(init[x], cfg) != OutputOf(init[y], cfg))
      && (forall g :: g in init ==> g in csvFiles)
      && csvFiles[a] in init
      && csvFiles[a] != csvFiles[|csvFiles| - 1]
      && OutputOf(csvFiles[a], cfg) != OutputOf(csvFiles[|csvFiles| - 1], cfg)
  {
    var init := csvFiles[..|csvFiles| - 1];
    assert init[a] == csvFiles[a];
    forall x, y | 0 <= x < y < |init| ensures OutputOf(init[x], cfg) != OutputOf(init[y], cfg) {
      assert init[x] == csvFiles[x] && init[y] == csvFiles[y];
    }
  }

  /**
   * With distinct outputs and the template present and no input's output,
   * the last input fails exactly when its output is absent at the end.
   */
  lemma BatchLastFailed(fs: Files, csvFiles: seq<string>, cfg: Config)
    requires csvFiles != []
    requires forall a, b :: 0 <= a < b < |csvFiles| ==> OutputOf(csvFiles[a], cfg) != OutputOf(csvFiles[b], cfg)
    requires cfg.templatePath in fs
    requires forall g :: g in csvFiles ==> cfg.templatePath != OutputOf(g, cfg)
    ensures csvFiles[|csvFiles| - 1] in Batch(fs, csvFiles, cfg).1 <==> OutputOf(csvFiles[|csvFiles| - 1], cfg) !in Batch(fs, csvFiles, cfg).0
  {
    var init := csvFiles[..|csvFiles| - 1];
    var last := csvFiles[|csvFiles| - 1];
    assert last !in Batch(fs, init, cfg).1 by {
      BatchFailedAreInputs(fs, init, cfg);
      assert last !in init;
    }
    assert cfg.templatePath in Batch(fs, init, cfg).0 by {
      assert forall g :: g in init ==> g in csvFiles;
      BatchTouchesOnlyOutputs(fs, init, cfg, cfg.templatePath);
    }
    StepFailedExactly(Batch(fs, init, cfg).0, last, cfg);
  }

  /** The last step keeps an earlier input's failure record and the presence of its output, when the two outputs differ. */
  lemma BatchEarlierFile(fs: Files, csvFiles: seq<string>, cfg: Config, f: string)
    requires csvFiles != []
    requires f != csvFiles[|csvFiles| - 1] && OutputOf(f, cfg) != OutputOf(csvFiles[|csvFiles| - 1], cfg)
    ensures f in Batch(fs, csvFiles, cfg).1 <==> f in Batch(fs, csvFiles[..|csvFiles| - 1], cfg).1
    ensures OutputOf(f, cfg) in Batch(fs, csvFiles, cfg).0 <==> OutputOf(f, cfg) in Batch(fs, csvFiles[..|csvFiles| - 1], cfg).0
  {
    StepKeepsOthers(Batch(fs, csvFiles[..|csvFiles| - 1], cfg).0, csvFiles[|csvFiles| - 1], cfg, OutputOf(f, cfg));
  }

  /** With the template present and distinct from the output, one step fails exactly when it leaves no output. */
  lemma StepFailedExactly(fs: Files, csvFile: string, cfg: Config)
    requires cfg.templatePath in fs && cfg.templatePath != OutputOf(csvFile, cfg)
    ensures Step(fs, csvFile, cfg).1 == Failed <==> OutputOf(csvFile, cfg) !in Step(fs, csvFile, cfg).0
  {
  }

  /** One step leaves the presence of every path other than its output as it was. */
  lemma StepKeepsOthers(fs: Files, csvFile: string, cfg: Config, p: string)
    requires p != OutputOf(csvFile, cfg)
    ensures p in Step(fs, csvFile, cfg).0 <==> p in fs
  {
    var r := Step(fs, csvFile, cfg).0;
    assert p in r <==> p in r - {OutputOf(csvFile, cfg)};
    assert p in fs <==> p in fs - {OutputOf(csvFile, cfg)};
  }

  /**
   * `prepare_template_copy`: the output path is stem + "_" + template name
   * in the output directory; with `skipExisting` and an existing output it
   * reports a skip and copies nothing, otherwise it copies the template
   * there. None stands for the exception `shutil.copy` raises.
   */
  method PrepareTemplateCopy(fs: FileSystem, csvFile: string, templatePath: string, outputDir: string, skipExisting: bool)
    returns (r: Option<(bool, string)>)
    modifies fs
    ensures r.Some? ==> r.value.1 == OutputPath(csvFile, templatePath, outputDir)
    ensures r.Some? ==> (r.value.0 <==> skipExisting && r.value.1 in old(fs.files))
    ensures r.None? <==> !(skipExisting && OutputPath(csvFile, templatePath, outputDir) in old(fs.files))
                         && (templatePath !in old(fs.files) || templatePath == OutputPath(csvFile, templatePath, outputDir))
    ensures fs.files == if r.Some? && !r.value.0
                        then old(fs.files)[r.value.1 := old(fs.files)[templatePath]]
                        else old(fs.files)
  {
    var outputFilePath := Join(outputDir, Stem(csvFile) + "_" + Name(templatePath));
    var present := fs.Exists(outputFilePath);
    if skipExisting && present {
      return Some((true, outputFilePath));
    }
    var ok := fs.Copy(templatePath, outputFilePath);
    if !ok {
      return None;
    }
    return Some((false, outputFilePath));
  }

  /**
   * The steps after the copy: read and load the CSV file, then open the
   * copied workbook and write the loaded grid into it. None stands for an
   * exception in any of them.
   */
  method LoadAndWrite(fs: FileSystem, csvFile: string, outputFilePath: string, cfg: Config) returns (saved: Option<Bytes>)
    requires outputFilePath in fs.files
    ensures saved == Convert(fs.files, csvFile, fs.files[outputFilePath], cfg)
  {
    saved := None;
    var csvBytes := fs.Read(csvFile);
    if csvBytes.Some? {
      var table := cfg.read(csvBytes.value);
      if table.Some? {
        var csvData := LoadCsv(table.value, cfg.columnsToInt);
        if csvData.Some? {
          var workbook := fs.Read(outputFilePath);
          saved := cfg.write(workbook.value, csvData.value);
        }
      }
    }
  }

  /** The body of the loop of `csv2template` for one input file, with its exception handler. */
  method ProcessFile(fs: FileSystem, csvFile: string, cfg: Config) returns (outcome: FileOutcome)
    modifies fs
    ensures (fs.files, outcome) == Step(old(fs.files), csvFile, cfg)
  {
    var outputFilePath: Option<string> := None;
    var prepared := PrepareTemplateCopy(fs, csvFile, cfg.templatePath, cfg.outputDir, cfg.skipExisting);
    var raised := prepared.None?;
    if !raised {
      var skip := prepared.value.0;
      outputFilePath := Some(prepared.value.1);
      if skip {
        return Skipped;
      }
      var saved := LoadAndWrite(fs, csvFile, outputFilePath.value, cfg);
      if saved.Some? {
        fs.Save(outputFilePath.value, saved.value);
        return Converted;
      }
      raised := true;
    }
    if outputFilePath.Some? {
      fs.Unlink(outputFilePath.value);
      return Failed;
    }
    return CopyRaised;
  }

  /** The loop of `csv2template` over the selected files, collecting `failed_files`. */
  method ConvertAll(fs: FileSystem, csvFiles: seq<string>, cfg: Config) returns (failedFiles: seq<string>)
    modifies fs
    ensures (fs.files, failedFiles) == Batch(old(fs.files), csvFiles, cfg)
  {
    failedFiles := [];
    for k := 0 to |csvFiles|
      invariant (fs.files, failedFiles) == Batch(old(fs.files), csvFiles[..k], cfg)
    {
      BatchPrefix(old(fs.files), csvFiles, k, cfg);
      var outcome := ProcessFile(fs, csvFiles[k], cfg);
      if outcome == Failed {
        failedFiles := failedFiles + [csvFiles[k]];
      }
    }
    assert csvFiles[..|csvFiles|] == csvFiles;
  }

  /** `csv2template`: the whole run, with the files of `listing` (the entries of `csvDir`) as input. */
  method Csv2Template(fs: FileSystem, csvDir: string, listing: seq<string>, cfg: Config) returns (report: Report)
    modifies fs
    ensures (fs.files, report) == Csv2TemplateSpec(old(fs.files), csvDir, listing, cfg)
  {
    var templateType := AfterLast(cfg.templatePath, '.');
    if templateType != "xlsx" {
      return WrongTemplateType;
    }
    var csvFiles := GetFiles(csvDir, listing, "csv");
    if |csvFiles| == 0 {
      return NoCsvFiles;
    }
    var failedFiles := ConvertAll(fs, csvFiles, cfg);
    return Finished(failedFiles);
  }
}
