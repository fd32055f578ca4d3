/**
 * The run itself: worker-pool sizing, the effective verbosity, the
 * translation of parsed arguments into compression options, and the
 * sequence of stages `main` drives. File discovery and compression are
 * collaborators passed in as functions.
 */
module Orchestration {
  import opened Options
  import opened Compressor
  import opened Recap

  /** Pool size: 0 asks for all available workers, otherwise never more than requested or available. */
  function ParallelismCount(requested: u32, available: nat): (threads: nat)
    ensures threads <= available
    ensures requested > 0 ==> threads <= requested as int
    ensures threads == available || threads == requested as int
    ensures requested == 0 ==> threads == available
  {
    match requested
    case 0 => available
    case n => if (n as int) < available then n as int else available
  }

  /** The unit tests of the pool sizing. */
  lemma ParallelismCountExamples()
    ensures ParallelismCount(4, 4) == 4
    ensures ParallelismCount(2, 8) == 2
    ensures ParallelismCount(0, 8) == 8
    ensures ParallelismCount(1, 8) == 1
    ensures ParallelismCount(8, 2) == 2
    ensures ParallelismCount(0, 0) == 0
  {
  }

  /** `quiet` is forced by the flag or by level 0. */
  function IsQuiet(args: CommandLineArgs): (quiet: bool)
    ensures quiet <==> args.quiet || args.verbose == VerboseLevel.Quiet
  {
    args.quiet || Discriminant(args.verbose) == 0
  }

  /** The verbosity handed to the progress bar and the recap. */
  function EffectiveVerbosity(args: CommandLineArgs): (verbose: u8)
    ensures verbose <= 3
    ensures verbose == 0 <==> IsQuiet(args)
    ensures !args.quiet ==> verbose == Discriminant(args.verbose)
    ensures LevelOf(verbose).Some?
  {
    if IsQuiet(args) then 0 else Discriminant(args.verbose)
  }

  /** A numeric label of each chroma-subsampling mode, 0 for the automatic choice. */
  function ChromaArgCode(arg: JpegChromaSubsampling): nat
  {
    match arg
    case ChromaSubsampling444 => 444
    case ChromaSubsampling422 => 422
    case ChromaSubsampling420 => 420
    case ChromaSubsampling411 => 411
    case Auto => 0
  }

  function ChromaCode(cs: ChromaSubsampling): nat
  {
    match cs
    case CS444 => 444
    case CS422 => 422
    case CS420 => 420
    case CS411 => 411
    case Auto => 0
  }

  /** The argument value that selects codec mode `cs`. */
  function ChromaArgument(cs: ChromaSubsampling): (arg: JpegChromaSubsampling)
    ensures ChromaArgCode(arg) == ChromaCode(cs)
  {
    match cs
    case CS444 => JpegChromaSubsampling.ChromaSubsampling444
    case CS422 => JpegChromaSubsampling.ChromaSubsampling422
    case CS420 => JpegChromaSubsampling.ChromaSubsampling420
    case CS411 => JpegChromaSubsampling.ChromaSubsampling411
    case Auto => JpegChromaSubsampling.Auto
  }

  /** Each explicit mode maps to the codec mode of the same number; anything else to Auto. */
  function ParseJpegChromaSubsampling(arg: JpegChromaSubsampling): (cs: ChromaSubsampling)
    ensures ChromaCode(cs) == ChromaArgCode(arg)
    ensures cs == ChromaSubsampling.Auto <==> ChromaArgCode(arg) !in {444, 422, 420, 411}
  {
    match arg
    case ChromaSubsampling444 => ChromaSubsampling.CS444
    case ChromaSubsampling422 => ChromaSubsampling.CS422
    case ChromaSubsampling420 => ChromaSubsampling.CS420
    case ChromaSubsampling411 => ChromaSubsampling.CS411
    case _ => ChromaSubsampling.Auto
  }

  /** The mapping loses nothing: it is a bijection with inverse `ChromaArgument`. */
  lemma ChromaRoundTrip(arg: JpegChromaSubsampling, cs: ChromaSubsampling)
    ensures ChromaArgument(ParseJpegChromaSubsampling(arg)) == arg
    ensures ParseJpegChromaSubsampling(ChromaArgument(cs)) == cs
  {
  }

  /** The compression options the codec needs, in the shape the groups guarantee. */
  predicate WellFormedOptions(o: CompressionOptions)
  {
    && ValidCompression(Compression(o.quality, o.lossless, o.maxSize))
    && ValidResize(Resize(o.width, o.height, o.longEdge, o.shortEdge))
    && (o.outputFolder.Some? != o.sameFolderAsInput)
  }

  /** Field-by-field copy of the parsed arguments, plus the discovered base path. */
  function BuildCompressionOptions(args: CommandLineArgs, basePath: string): (o: CompressionOptions)
    ensures o.basePath == basePath
    ensures ValidArgs(args) ==> WellFormedOptions(o)
    ensures ChromaCode(o.jpegChromaSubsampling) == ChromaArgCode(args.jpegChromaSubsampling)
    ensures Compression(o.quality, o.lossless, o.maxSize) == args.compression
    ensures Resize(o.width, o.height, o.longEdge, o.shortEdge) == args.resize
    ensures OutputDestination(o.outputFolder, o.sameFolderAsInput) == args.outputDestination
    ensures o.keepStructure == args.keepStructure && o.keepDates == args.keepDates && o.exif == args.exif
    ensures o.jpegBaseline == args.jpegBaseline && o.zopfli == args.zopfli
    ensures o.overwritePolicy == args.overwrite && o.format == args.format
    ensures o.suffix == args.suffix && o.pngOptLevel == args.pngOptLevel
  {
    CompressionOptions(
      quality := args.compression.quality,
      lossless := args.compression.lossless,
      outputFolder := args.outputDestination.output,
      sameFolderAsInput := args.outputDestination.sameFolderAsInput,
      overwritePolicy := args.overwrite,
      format := args.format,
      suffix := args.suffix,
      keepStructure := args.keepStructure,
      width := args.resize.width,
      height := args.resize.height,
      longEdge := args.resize.longEdge,
      shortEdge := args.resize.shortEdge,
      maxSize := args.compression.maxSize,
      keepDates := args.keepDates,
      exif := args.exif,
      pngOptLevel := args.pngOptLevel,
      jpegChromaSubsampling := ParseJpegChromaSubsampling(args.jpegChromaSubsampling),
      jpegBaseline := args.jpegBaseline,
      zopfli := args.zopfli,
      basePath := basePath)
  }

  /**
   * Nothing the codec reads is lost in the copy: equal options come only
   * from arguments that agree on every copied setting and the same base path.
   */
  lemma BuildCompressionOptionsInjective(a1: CommandLineArgs, b1: string, a2: CommandLineArgs, b2: string)
    requires BuildCompressionOptions(a1, b1) == BuildCompressionOptions(a2, b2)
    ensures a1.compression == a2.compression && a1.resize == a2.resize
    ensures a1.outputDestination == a2.outputDestination
    ensures a1.jpegChromaSubsampling == a2.jpegChromaSubsampling
    ensures a1.overwrite == a2.overwrite && a1.format == a2.format && a1.suffix == a2.suffix
    ensures a1.keepStructure == a2.keepStructure && a1.keepDates == a2.keepDates && a1.exif == a2.exif
    ensures a1.pngOptLevel == a2.pngOptLevel && a1.jpegBaseline == a2.jpegBaseline && a1.zopfli == a2.zopfli
    ensures b1 == b2
  {
    ChromaRoundTrip(a1.jpegChromaSubsampling, ChromaSubsampling.Auto);
    ChromaRoundTrip(a2.jpegChromaSubsampling, ChromaSubsampling.Auto);
  }

  /** The run-control arguments (inputs, threads, verbosity, recursion, dry run) do not reach the options. */
  lemma BuildIgnoresRunControl(args: CommandLineArgs, basePath: string, files: seq<string>, threads: u32,
                               quiet: bool, verbose: VerboseLevel, recursive: bool, dryRun: bool)
    ensures BuildCompressionOptions(args.(files := files, threads := threads, quiet := quiet, verbose := verbose,
                                          recursive := recursive, dryRun := dryRun), basePath)
         == BuildCompressionOptions(args, basePath)
  {
  }

  /** What a run did: stopped for lack of input, or went through every stage. */
  datatype RunOutcome =
    | NoFiles
    | Completed(threads: nat, verbose: u8, basePath: string, inputFiles: seq<string>,
                options: CompressionOptions, results: seq<CompressionResult>, report: seq<Event>)

  /**
   * `main`: stop when no input was given; otherwise size the pool, derive
   * the verbosity, discover the files, build the options, compress, and
   * write the recap. `available` is the host's parallelism, `scan` the file
   * discovery (inputs, recursive, quiet) and `compress` the compression
   * stage (inputs, options, dry run).
   */
  method Run(args: CommandLineArgs, available: nat,
             scan: (seq<string>, bool, bool) -> (string, seq<string>),
             compress: (seq<string>, CompressionOptions, bool) -> seq<CompressionResult>)
    returns (outcome: RunOutcome)
    requires ValidArgs(args)
    ensures outcome.NoFiles? <==> |args.files| == 0
    ensures outcome.Completed? ==>
      && outcome.threads == ParallelismCount(args.threads, available)
      && outcome.verbose == EffectiveVerbosity(args)
      && (outcome.basePath, outcome.inputFiles) == scan(args.files, args.recursive, IsQuiet(args))
      && outcome.options == BuildCompressionOptions(args, outcome.basePath)
      && outcome.results == compress(outcome.inputFiles, outcome.options, args.dryRun)
      && outcome.report == RecapEvents(outcome.results, outcome.verbose)
    ensures outcome.Completed? ==> outcome.threads <= available && WellFormedOptions(outcome.options)
    ensures outcome.Completed? && IsQuiet(args) ==> outcome.report == []
  {
    if |args.files| == 0 {
      return NoFiles;
    }

    var threadsNumber := ParallelismCount(args.threads, available);

    var quiet := IsQuiet(args);
    var verbose := EffectiveVerbosity(args);
    var (basePath, inputFiles) := scan(args.files, args.recursive, quiet);

    var compressionOptions := BuildCompressionOptions(args, basePath);
    var compressionResults := compress(inputFiles, compressionOptions, args.dryRun);
    var report := WriteRecapMessage(compressionResults, verbose);
    if quiet {
      RecapSilent(compressionResults, verbose);
    }
    outcome := Completed(threadsNumber, verbose, basePath, inputFiles, compressionOptions, compressionResults, report);
  }

  /**
   * A run with no defaulted option given on the command line is no dry
   * run, uses at most one worker and, unless quiet, reports only the summary.
   */
  lemma DefaultRunIsSequentialWithSummaryOnly(args: CommandLineArgs, available: nat,
                                              rs: seq<CompressionResult>)
    requires ParserAccepts(args, Explicit(false, false, false, false, false, false))
    ensures !args.dryRun
    ensures ParallelismCount(args.threads, available) <= 1
    ensures args.quiet ==> RecapEvents(rs, EffectiveVerbosity(args)) == []
    ensures !args.quiet ==> EffectiveVerbosity(args) == 1
    ensures !args.quiet && |rs| > 0 ==> RecapEvents(rs, 1) == [SummaryOf(rs)]
    ensures forall i :: 0 <= i < |rs| ==> !Emits(RecapEvents(rs, EffectiveVerbosity(args)), i)
  {
    RecapSilent(rs, 0);
    SilentBelowTwo(rs, 1);
    forall i | 0 <= i < |rs|
      ensures !Emits(RecapEvents(rs, EffectiveVerbosity(args)), i)
    {
      RecapTiers(rs, EffectiveVerbosity(args), i);
    }
  }
}
