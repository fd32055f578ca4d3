/**
 * The command-line option model: the enumerations the tool accepts, the
 * argument groups (compression mode, resize, output destination) and the
 * constraints the argument parser enforces on them before `main` runs.
 */
module Options {

  /** Rust's `u8` and `u32`: the widths of the option values as declared. */
  newtype u8 = x: int | 0 <= x < 0x100
  newtype u32 = x: int | 0 <= x < 0x1_0000_0000

  datatype Option<T> = None | Some(value: T)

  /** What to do when the output file already exists. */
  datatype OverwritePolicy =
    | All     // always overwrite
    | Never   // never overwrite
    | Bigger  // overwrite only if the existing file is bigger

  datatype OutputFormat = Jpeg | Png | Webp | Tiff | Original

  /** How much the tool reports; the discriminants are given by `Discriminant`. */
  datatype VerboseLevel =
    | Quiet              // suppress all output
    | Progress           // progress and final results
    | WarningsAndErrors  // also skipped and error entries
    | All                // everything

  /** The explicit discriminant of each `VerboseLevel` variant (0..3). */
  function Discriminant(level: VerboseLevel): (d: u8)
    ensures d <= 3
  {
    match level
    case Quiet => 0
    case Progress => 1
    case WarningsAndErrors => 2
    case All => 3
  }

  /** The variant with discriminant `d`, if there is one. */
  function LevelOf(d: u8): (level: Option<VerboseLevel>)
    ensures level.Some? <==> d <= 3
  {
    if d == 0 then Some(VerboseLevel.Quiet)
    else if d == 1 then Some(VerboseLevel.Progress)
    else if d == 2 then Some(VerboseLevel.WarningsAndErrors)
    else if d == 3 then Some(VerboseLevel.All)
    else None
  }

  /** The discriminants identify the variants: `LevelOf` inverts `Discriminant`. */
  lemma DiscriminantRoundTrip(level: VerboseLevel, d: u8)
    ensures Discriminant(VerboseLevel.Quiet) == 0 && Discriminant(VerboseLevel.Progress) == 1
    ensures Discriminant(VerboseLevel.WarningsAndErrors) == 2 && Discriminant(VerboseLevel.All) == 3
    ensures LevelOf(Discriminant(level)) == Some(level)
    ensures LevelOf(d).Some? ==> Discriminant(LevelOf(d).value) == d
  {
  }

  /** The derived ordering of `VerboseLevel` follows the discriminants: it is a total order. */
  predicate LevelLe(a: VerboseLevel, b: VerboseLevel)
  {
    Discriminant(a) <= Discriminant(b)
  }

  lemma LevelLeIsTotalOrder(a: VerboseLevel, b: VerboseLevel, c: VerboseLevel)
    ensures LevelLe(a, b) || LevelLe(b, a)
    ensures LevelLe(a, b) && LevelLe(b, a) ==> a == b
    ensures LevelLe(a, b) && LevelLe(b, c) ==> LevelLe(a, c)
    ensures LevelLe(VerboseLevel.Quiet, a) && LevelLe(a, VerboseLevel.All)
  {
    DiscriminantRoundTrip(a, 0);
    DiscriminantRoundTrip(b, 0);
  }

  /**
   * The JPEG chroma-subsampling argument: four explicit modes and a
   * catch-all that leaves the choice to the codec.
   */
  datatype JpegChromaSubsampling =
    | ChromaSubsampling444
    | ChromaSubsampling422
    | ChromaSubsampling420
    | ChromaSubsampling411
    | Auto

  /** Compression mode group: required, at most one member. */
  datatype Compression = Compression(quality: Option<u8>, lossless: bool, maxSize: Option<u8>)

  /** Resize group: all optional; long and short edge exclude everything else. */
  datatype Resize = Resize(width: Option<u32>, height: Option<u32>, longEdge: Option<u32>, shortEdge: Option<u32>)

  /** Output destination group: required, at most one member. */
  datatype OutputDestination = OutputDestination(output: Option<string>, sameFolderAsInput: bool)

  datatype CommandLineArgs = CommandLineArgs(
    compression: Compression,
    resize: Resize,
    outputDestination: OutputDestination,
    format: OutputFormat,
    pngOptLevel: u8,
    zopfli: bool,
    exif: bool,
    keepDates: bool,
    suffix: Option<string>,
    recursive: bool,
    keepStructure: bool,
    dryRun: bool,
    threads: u32,
    overwrite: OverwritePolicy,
    quiet: bool,
    verbose: VerboseLevel,
    files: seq<string>,
    jpegChromaSubsampling: JpegChromaSubsampling,
    jpegBaseline: bool)

  /** How many members of the compression group were given (a flag counts when set). */
  function CompressionModesGiven(c: Compression): nat
  {
    (if c.quality.Some? then 1 else 0) + (if c.lossless then 1 else 0) + (if c.maxSize.Some? then 1 else 0)
  }

  /** `required = true, multiple = false`. */
  predicate ValidCompression(c: Compression)
  {
    CompressionModesGiven(c) == 1
  }

  /** The `conflicts_with_all` lists of the four resize options (conflicts are symmetric). */
  predicate ValidResize(r: Resize)
  {
    && (r.width.Some? ==> r.longEdge.None? && r.shortEdge.None?)
    && (r.height.Some? ==> r.longEdge.None? && r.shortEdge.None?)
    && (r.longEdge.Some? ==> r.width.None? && r.height.None? && r.shortEdge.None?)
    && (r.shortEdge.Some? ==> r.width.None? && r.height.None? && r.longEdge.None?)
  }

  /** `required = true, multiple = false`: an explicit folder or the input's own folder. */
  predicate ValidOutputDestination(d: OutputDestination)
  {
    !(d.output.Some? && d.sameFolderAsInput) && (d.output.Some? || d.sameFolderAsInput)
  }

  /** The group and conflict rules the parser enforces on the parsed arguments. */
  predicate ValidArgs(args: CommandLineArgs)
  {
    && ValidCompression(args.compression)
    && ValidResize(args.resize)
    && ValidOutputDestination(args.outputDestination)
  }

  /** Exactly one compression mode is chosen. */
  lemma CompressionExactlyOne(c: Compression)
    ensures ValidCompression(c) <==>
      || (c.quality.Some? && !c.lossless && c.maxSize.None?)
      || (c.quality.None? && c.lossless && c.maxSize.None?)
      || (c.quality.None? && !c.lossless && c.maxSize.Some?)
  {
  }

  /** Exactly one output destination is chosen. */
  lemma OutputDestinationExactlyOne(d: OutputDestination)
    ensures ValidOutputDestination(d) <==> (d.output.Some? != d.sameFolderAsInput)
  {
  }

  /**
   * Width and height together form one resize mode, long edge and short
   * edge one each; the resize rules allow at most one mode.
   */
  function ResizeModesGiven(r: Resize): nat
  {
    (if r.width.Some? || r.height.Some? then 1 else 0)
      + (if r.longEdge.Some? then 1 else 0)
      + (if r.shortEdge.Some? then 1 else 0)
  }

  lemma ResizeAtMostOneMode(r: Resize)
    ensures ValidResize(r) <==> ResizeModesGiven(r) <= 1
    ensures ValidResize(Resize(None, None, None, None))
    ensures ValidResize(Resize(r.width, r.height, None, None))
  {
  }

  /** The default values of the options that carry one. */
  const DefaultFormat: OutputFormat := OutputFormat.Original
  const DefaultPngOptLevel: u8 := 3
  const DefaultThreads: u32 := 1
  const DefaultOverwrite: OverwritePolicy := OverwritePolicy.All
  const DefaultVerbose: VerboseLevel := VerboseLevel.Progress
  const DefaultDryRun: bool := false

  /** Which of the defaulted options appeared on the command line. */
  datatype Explicit = Explicit(format: bool, pngOptLevel: bool, threads: bool, dryRun: bool,
                                overwrite: bool, verbose: bool)

  /**
   * The argument values the parser can hand to `main`: the group rules
   * hold, `quiet` and an explicit `verbose` are not both given (they share
   * the "verbosity" group), and every option not given holds its default,
   * `dry_run`'s declared default of false among them.
   */
  predicate ParserAccepts(args: CommandLineArgs, given: Explicit)
  {
    && ValidArgs(args)
    && !(args.quiet && given.verbose)
    && (!given.format ==> args.format == DefaultFormat)
    && (!given.pngOptLevel ==> args.pngOptLevel == DefaultPngOptLevel)
    && (!given.threads ==> args.threads == DefaultThreads)
    && (!given.dryRun ==> args.dryRun == DefaultDryRun)
    && (!given.overwrite ==> args.overwrite == DefaultOverwrite)
    && (!given.verbose ==> args.verbose == DefaultVerbose)
  }

  /** With `quiet`, the verbosity level is the untouched default. */
  lemma QuietLeavesDefaultVerbosity(args: CommandLineArgs, given: Explicit)
    requires ParserAccepts(args, given)
    requires args.quiet
    ensures args.verbose == VerboseLevel.Progress && !given.verbose
  {
  }
}
