/** `convert_to_pdf.py`: the decision chain of `convert_to_pdf` and the counting loop
    of `batch_convert`.  The three converters are oracles that report success;
    which paths exist and the platform name are parameters. */
module Convert {
  import opened Wrappers
  import opened Text
  import opened Paths

  /** The converters: images (on any platform), and Word and slide documents
      (through the office applications, macOS only).  Each receives the input and
      output paths and reports whether it succeeded. */
  datatype Converters = Converters(
    image: (Path, Path) -> bool,
    word: (Path, Path) -> bool,
    slides: (Path, Path) -> bool)

  /** The branch of `convert_to_pdf` that decided the result. */
  datatype Route =
    | InputMissing
    | AlreadyPdf
    | OutputExists
    | ImageConverter
    | WordConverter
    | SlidesConverter
    | WordUnsupported
    | SlidesUnsupported
    | UnsupportedType

  /** The branches in which a converter runs. */
  predicate RunsConverter(route: Route) {
    route == ImageConverter || route == WordConverter || route == SlidesConverter
  }

  /** What a call returns, with the branch that returned it; `with_suffix` raises
      `ValueError` for an existing path with an empty name when no output is given. */
  datatype Outcome = Returned(ok: bool, route: Route) | RaisedValueError

  /** The output path: the one given, or the input with its suffix replaced by `.pdf`
      in the same directory. */
  function OutputPath(input: Path, output: Option<Path>): Path
    requires output.None? ==> input.name != []
  {
    match output
    case Some(p) => p
    case None => Path(input.dir, WithSuffix(input.name, ".pdf"))
  }

  /** `convert_to_pdf(input_path, output_path)`.  `present` is the set of existing
      paths and `system` the value of `platform.system()`. */
  function ConvertToPdf(input: Path, output: Option<Path>, present: set<Path>, system: string, conv: Converters): (o: Outcome)
    ensures o.RaisedValueError? <==> input in present && output.None? && input.name == []
    ensures o.Returned? && o.ok ==>
      || o.route == AlreadyPdf || o.route == OutputExists
      || (RunsConverter(o.route) && (output.None? ==> input.name != []) && OutputPath(input, output) !in present)
    ensures o.Returned? && !o.ok ==> o.route != AlreadyPdf && o.route != OutputExists
  {
    if input !in present then Returned(false, InputMissing)
    else if output.None? && input.name == [] then RaisedValueError
    else
      var out := OutputPath(input, output);
      var ext := Lower(Suffix(input.name));
      if ext == ".pdf" then Returned(true, AlreadyPdf)
      else if out in present then Returned(true, OutputExists)
      else if ext == ".png" then Returned(conv.image(input, out), ImageConverter)
      else if ext == ".docx" then
        if system == "Darwin" then Returned(conv.word(input, out), WordConverter)
        else Returned(false, WordUnsupported)
      else if ext == ".pptx" then
        if system == "Darwin" then Returned(conv.slides(input, out), SlidesConverter)
        else Returned(false, SlidesUnsupported)
      else Returned(false, UnsupportedType)
  }

  // ---------------------------------------------------------------------------
  // The decision table

  /** A missing input fails before anything else is looked at. */
  lemma MissingInputFails(input: Path, output: Option<Path>, present: set<Path>, system: string, conv: Converters)
    requires input !in present
    ensures ConvertToPdf(input, output, present, system, conv) == Returned(false, InputMissing)
  {
  }

  /** Without an output path the output is the input renamed to `.pdf` beside it:
      same directory, same stem, suffix `.pdf`. */
  lemma DefaultOutputPath(input: Path)
    requires input.name != []
    ensures OutputPath(input, None).dir == input.dir
    ensures Suffix(OutputPath(input, None).name) == ".pdf"
    ensures Stem(OutputPath(input, None).name) == Stem(input.name)
  {
    WithPdfSuffix(input.name);
  }

  /** An existing `.pdf` input (in any letter case) succeeds without a converter,
      whether or not the output exists. */
  lemma PdfInputSkipped(input: Path, output: Option<Path>, present: set<Path>, system: string, conv: Converters)
    requires input in present && Lower(Suffix(input.name)) == ".pdf"
    ensures ConvertToPdf(input, output, present, system, conv) == Returned(true, AlreadyPdf)
  {
    assert Suffix(input.name) != [];
  }

  /** Any other existing input whose output exists succeeds without a converter. */
  lemma ExistingOutputSkipped(input: Path, output: Option<Path>, present: set<Path>, system: string, conv: Converters)
    requires input in present && (output.None? ==> input.name != [])
    requires Lower(Suffix(input.name)) != ".pdf" && OutputPath(input, output) in present
    ensures ConvertToPdf(input, output, present, system, conv) == Returned(true, OutputExists)
  {
  }

  /** Past the two skips, the result is the converter's on every platform for an
      image, the converter's on macOS for a Word or slide document, and failure
      for those documents elsewhere and for any other type. */
  lemma Routing(input: Path, output: Option<Path>, present: set<Path>, system: string, conv: Converters)
    requires input in present && (output.None? ==> input.name != [])
    requires OutputPath(input, output) !in present
    ensures var o := ConvertToPdf(input, output, present, system, conv);
            var out := OutputPath(input, output);
            var ext := Lower(Suffix(input.name));
      && (ext == ".png" ==> o == Returned(conv.image(input, out), ImageConverter))
      && (ext == ".docx" && system == "Darwin" ==> o == Returned(conv.word(input, out), WordConverter))
      && (ext == ".pptx" && system == "Darwin" ==> o == Returned(conv.slides(input, out), SlidesConverter))
      && (ext == ".docx" && system != "Darwin" ==> o == Returned(false, WordUnsupported))
      && (ext == ".pptx" && system != "Darwin" ==> o == Returned(false, SlidesUnsupported))
      && (ext !in SupportedExtensions ==> o == Returned(false, UnsupportedType))
  {
  }

  /** A converter runs only on an existing, non-PDF input whose output does not exist
      yet, and only for an image or, on macOS, a Word or slide document. */
  lemma ConverterPreconditions(input: Path, output: Option<Path>, present: set<Path>, system: string, conv: Converters)
    requires ConvertToPdf(input, output, present, system, conv).Returned?
    requires RunsConverter(ConvertToPdf(input, output, present, system, conv).route)
    ensures input in present && OutputPath(input, output) !in present
    ensures Lower(Suffix(input.name)) == ".png"
         || (system == "Darwin" && Lower(Suffix(input.name)) in {".docx", ".pptx"})
  {
  }

  // ---------------------------------------------------------------------------
  // batch_convert

  /** The three counters `batch_convert` prints. */
  datatype Tally = Tally(converted: nat, skipped: nat, errors: nat)

  /** The counters and the existing paths after part of a batch. */
  datatype BatchState = BatchState(tally: Tally, present: set<Path>)

  /** One pass of the loop: the file is converted with the default output path; a
      success counts as skipped for a `.pdf` file and as converted otherwise (also
      when it was skipped because its output exists), and a failure as an error.
      A converter that succeeds has written the output path. */
  function Step(s: BatchState, f: Path, system: string, conv: Converters): BatchState
    requires f.name != []
  {
    var o := ConvertToPdf(f, None, s.present, system, conv);
    var t := s.tally;
    if !o.ok then BatchState(Tally(t.converted, t.skipped, t.errors + 1), s.present)
    else
      var present := if RunsConverter(o.route) then s.present + {OutputPath(f, None)} else s.present;
      if Lower(Suffix(f.name)) == ".pdf" then BatchState(Tally(t.converted, t.skipped + 1, t.errors), present)
      else BatchState(Tally(t.converted + 1, t.skipped, t.errors), present)
  }

  /** `Step` in terms of the outcome of the conversion. */
  lemma StepOf(s: BatchState, f: Path, system: string, conv: Converters, o: Outcome)
    requires f.name != [] && o == ConvertToPdf(f, None, s.present, system, conv)
    ensures o.Returned?
    ensures var t := s.tally;
      Step(s, f, system, conv)
      == if !o.ok then BatchState(Tally(t.converted, t.skipped, t.errors + 1), s.present)
         else
           var present := if RunsConverter(o.route) then s.present + {OutputPath(f, None)} else s.present;
           if Lower(Suffix(f.name)) == ".pdf" then BatchState(Tally(t.converted, t.skipped + 1, t.errors), present)
           else BatchState(Tally(t.converted + 1, t.skipped, t.errors), present)
  {
  }

  /** Every file of the batch has a supported suffix, hence a name. */
  predicate AllSupported(files: seq<Path>) {
    forall k :: 0 <= k < |files| ==> HasSupportedSuffix(files[k].name)
  }

  /** The number of `.pdf` files. */
  function PdfCount(files: seq<Path>): nat {
    if files == [] then 0
    else PdfCount(files[..|files| - 1]) + (if Lower(Suffix(files[|files| - 1].name)) == ".pdf" then 1 else 0)
  }

  /** The state after processing `files` in order, starting from the existing paths. */
  function Run(files: seq<Path>, present: set<Path>, system: string, conv: Converters): (s: BatchState)
    requires AllSupported(files)
    ensures s.tally.converted + s.tally.skipped + s.tally.errors == |files|
    ensures s.tally.skipped <= PdfCount(files)
    ensures present <= s.present
  {
    if files == [] then BatchState(Tally(0, 0, 0), present)
    else
      var n := |files| - 1;
      SupportedNameNonEmpty(files[n].name);
      Step(Run(files[..n], present, system, conv), files[n], system, conv)
  }

  /** `batch_convert(directory)`: `rootIsDir` is `directory.is_dir()` and `listing`
      the result of the glob.  Nothing is counted when the root is not a directory
      or holds no supported file; otherwise the counters after the loop. */
  method BatchConvert(rootIsDir: bool, listing: seq<DirEntry>, present: set<Path>, system: string, conv: Converters)
    returns (tally: Option<Tally>)
    ensures !rootIsDir || SupportedFiles(listing) == [] ==> tally == None
    ensures rootIsDir && SupportedFiles(listing) != [] ==>
      AllSupported(SupportedFiles(listing)) && tally == Some(Run(SupportedFiles(listing), present, system, conv).tally)
  {
    if !rootIsDir {
      return None;
    }
    var files := SupportedFiles(listing);
    if files == [] {
      return None;
    }
    assert AllSupported(files) by {
      forall k | 0 <= k < |files| ensures HasSupportedSuffix(files[k].name) {
        assert files[k] in files;
      }
    }
    var counts := ConvertAll(files, present, system, conv);
    tally := Some(counts);
  }

  /** Processing one more file is one more step. */
  lemma RunExtend(files: seq<Path>, n: nat, present: set<Path>, system: string, conv: Converters)
    requires AllSupported(files) && n < |files|
    ensures AllSupported(files[..n]) && AllSupported(files[..n + 1]) && files[n].name != []
    ensures Run(files[..n + 1], present, system, conv) == Step(Run(files[..n], present, system, conv), files[n], system, conv)
  {
    SupportedNameNonEmpty(files[n].name);
    assert files[..n + 1][..n] == files[..n];
  }

  /** The loop of `batch_convert` over the supported files. */
  method ConvertAll(files: seq<Path>, present: set<Path>, system: string, conv: Converters) returns (tally: Tally)
    requires AllSupported(files)
    ensures tally == Run(files, present, system, conv).tally
  {
    var successCount, skipCount, errorCount := 0, 0, 0;
    var existing := present;
    for n := 0 to |files|
      invariant AllSupported(files[..n])
      invariant BatchState(Tally(successCount, skipCount, errorCount), existing) == Run(files[..n], present, system, conv)
    {
      ghost var before := BatchState(Tally(successCount, skipCount, errorCount), existing);
      var filePath := files[n];
      SupportedNameNonEmpty(filePath.name);
      var result := ConvertToPdf(filePath, None, existing, system, conv);
      if result.ok {
        if RunsConverter(result.route) {
          existing := existing + {OutputPath(filePath, None)};
        }
        if Lower(Suffix(filePath.name)) == ".pdf" {
          skipCount := skipCount + 1;
        } else {
          successCount := successCount + 1;
        }
      } else {
        errorCount := errorCount + 1;
      }
      StepOf(before, filePath, system, conv, result);
      RunExtend(files, n, present, system, conv);
    }
    assert files[..|files|] == files;
    tally := Tally(successCount, skipCount, errorCount);
  }

  // ---------------------------------------------------------------------------
  // Properties of a batch

  /** A non-PDF file whose output already exists is counted as converted, although
      no converter ran and nothing was written. */
  lemma ExistingOutputCountsAsConverted(s: BatchState, f: Path, system: string, conv: Converters)
    requires f.name != [] && f in s.present
    requires Lower(Suffix(f.name)) != ".pdf" && OutputPath(f, None) in s.present
    ensures Step(s, f, system, conv)
         == BatchState(Tally(s.tally.converted + 1, s.tally.skipped, s.tally.errors), s.present)
  {
    ExistingOutputSkipped(f, None, s.present, system, conv);
  }

  /** When every file of the batch exists, the skipped counter is exactly the number
      of `.pdf` files: they are the only ones that can be skipped, and each is. */
  lemma {:induction false} SkippedArePdfs(files: seq<Path>, present: set<Path>, system: string, conv: Converters)
    requires AllSupported(files)
    requires forall k :: 0 <= k < |files| ==> files[k] in present
    ensures Run(files, present, system, conv).tally.skipped == PdfCount(files)
  {
    if files != [] {
      var n := |files| - 1;
      SkippedArePdfs(files[..n], present, system, conv);
      SupportedNameNonEmpty(files[n].name);
      StepSkips(Run(files[..n], present, system, conv), files[n], system, conv);
    }
  }

  /** An existing file adds one to the skipped counter exactly when it is a `.pdf`. */
  lemma StepSkips(s: BatchState, f: Path, system: string, conv: Converters)
    requires f.name != [] && f in s.present
    ensures Step(s, f, system, conv).tally.skipped
         == s.tally.skipped + (if Lower(Suffix(f.name)) == ".pdf" then 1 else 0)
  {
    if Lower(Suffix(f.name)) == ".pdf" {
      PdfInputSkipped(f, None, s.present, system, conv);
    }
  }

  /** The error counter is the number of files whose conversion returned False. */
  lemma StepCountsFailures(s: BatchState, f: Path, system: string, conv: Converters)
    requires f.name != []
    ensures var o := ConvertToPdf(f, None, s.present, system, conv);
      Step(s, f, system, conv).tally.errors == s.tally.errors + (if o.ok then 0 else 1)
  {
  }
}
