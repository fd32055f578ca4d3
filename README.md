# caesium-clt orchestration core, modelled in Dafny

caesium-clt is a batch image-compression command-line tool. This project
models the part of it that sits around the compression itself:

- the command-line option model: the overwrite policy, output format and
  verbosity enumerations, and the argument-group rules the parser enforces;
- how `main` sizes the worker pool, derives the effective verbosity, builds
  the compression options and sequences the stages of a run;
- the end-of-run recap. It folds all compression results into totals,
  computes the saturating "saved" figure, and decides which per-file blocks
  and which summary are printed at each verbosity level.

The printed recap is modelled as a sequence of report events: `PerFile(i, …)`
for the result at position `i` that gets a block, and `Summary(…)` for the
closing totals. The text formatting is not modelled.

Modules, one per source component:

- `Options` (`options.dfy`): the enums, the argument structs, `ValidArgs`
  (compression, resize and output-destination groups), and `ParserAccepts`
  (adds the verbosity group and the default values).
- `Compressor` (`compressor.dfy`): `CompressionResult`, `CompressionStatus`,
  `CompressionOptions` and a local mirror of the codec's `ChromaSubsampling`.
  The compressor module itself is not part of this model. These types are
  built from the fields `main.rs` reads and writes.
- `Recap` (`recap.dfy`): `write_recap_message`. The fold is a function
  `Tally`, proved equal to an independent reference of plain sums and
  counts. The report is a method with the source's loop, proved equal to
  the specification function `RecapEvents`.
- `Orchestration` (`orchestration.dfy`): `get_parallelism_count`, the
  quiet/verbose derivation, `parse_jpeg_chroma_subsampling`,
  `build_compression_options`, and `main` as the method `Run`. File
  discovery and compression are function parameters of `Run`. The host
  parallelism is an integer parameter.

Notes on the source as written:

- The overwrite policy variants are `All`, `Never` and `Bigger`.
- The per-file percentage is `(compressed − original) / original × 100`, a
  change that is negative when the file shrank. It is not a "saved" figure.
- `main.rs` compares `args.verbose` with `0` and passes it where a `u8` is
  expected. The model reads this as the level's discriminant, `Discriminant`.
- `main.rs` reads `args.jpeg_chroma_subsampling` and `args.jpeg_baseline`,
  and imports `JpegChromaSubsampling` from `options.rs`. `options.rs`
  declares none of these. The model carries both fields in
  `CommandLineArgs`. `JpegChromaSubsampling` is modelled as the four
  explicit modes plus one catch-all `Auto` (the `_` arm of the match).
- `max_size` and `quality` are declared `u8` and `threads` `u32`. They are
  modelled with those widths.

## Model

| member | source | states |
|---|---|---|
| `Options.Discriminant` | src/options.rs:23-33 | every verbosity level has a discriminant between 0 and 3 |
| `Options.LevelOf` | src/options.rs:23-33 | a discriminant names a level exactly when it is at most 3 |
| `Options.DiscriminantRoundTrip` | src/options.rs:23-33 | the discriminants are Quiet=0, Progress=1, WarningsAndErrors=2, All=3, and they identify the levels (both directions of the round trip) |
| `Options.LevelLeIsTotalOrder` | src/options.rs:23-33 | the derived ordering of levels, by discriminant, is a total order with Quiet lowest and All highest |
| `Options.LevelLe` | src/options.rs:23 | the derived `PartialOrd`/`Ord` of levels, compared by discriminant; `LevelLeIsTotalOrder` proves it a total order with Quiet lowest and All highest |
| `Options.CompressionExactlyOne` | src/options.rs:102-116 | the compression group holds exactly when exactly one of quality, lossless or max-size is given |
| `Options.ResizeAtMostOneMode` | src/options.rs:118-136 | the resize conflicts allow at most one mode (width/height together, long edge, or short edge); all four may be absent; width and height may be given together |
| `Options.OutputDestinationExactlyOne` | src/options.rs:138-147 | the destination group holds exactly when one of an explicit output folder or same-folder-as-input is given |
| `Options.ValidCompression` | src/options.rs:102-116 | the compression group rule; characterized by `CompressionExactlyOne` |
| `Options.ValidResize` | src/options.rs:118-136 | the resize conflict lists; characterized by `ResizeAtMostOneMode` |
| `Options.ValidOutputDestination` | src/options.rs:138-147 | the destination group rule; characterized by `OutputDestinationExactlyOne` |
| `Options.ValidArgs` | src/options.rs:102-147 | the three group rules together; a precondition of `Run`, and by `BuildCompressionOptions` it makes the options well formed |
| `Options.ParserAccepts` | src/options.rs:48-97 | the group rules, the verbosity group and the defaults of format, png_opt_level, dry_run, threads, overwrite and verbose; characterized by `QuietLeavesDefaultVerbosity` and `DefaultRunIsSequentialWithSummaryOnly` |
| `Options.QuietLeavesDefaultVerbosity` | src/options.rs:91-97 | quiet and verbose share the "verbosity" group, so with quiet the level is not given and keeps its default, Progress |
| `Recap.Step` | src/main.rs:58-71 | one fold step adds the result's sizes and increments exactly one counter, the one matching its status, by one |
| `Recap.Fold` | src/main.rs:56-72 | the fold adds one to the counters per result and never decreases the byte totals; `FoldAddsReference` gives its exact value |
| `Recap.Tally` | src/main.rs:56-74 | the counters of the fold from zero add up to the number of results; `TallyIsReference` and `TallyOrderIndependent` characterize it |
| `Recap.FoldAddsReference` | src/main.rs:56-72 | folding from any accumulator adds the plain byte sums and per-status counts of the results to it |
| `Recap.CountsCoverAll` | src/main.rs:59-63 | the success, skipped and error counts add up to the number of results |
| `Recap.TallyIsReference` | src/main.rs:56-74 | the fold's totals are the sums of the per-result sizes and the per-status counts, and success + skipped + errors equals the number of results |
| `Recap.ReferencePermutation` | src/main.rs:56-72 | the sums and counts are the same for any reordering of the results |
| `Recap.TallyOrderIndependent` | src/main.rs:56-72 | the fold's totals do not depend on the order of the results |
| `Recap.Saved` | src/main.rs:106 | the saturating subtraction: saved is at most the original total, and it is either 0 or the exact difference, never less than the difference |
| `Recap.SavedPercent` | src/main.rs:107-111 | the total saved percentage is saved / original × 100 when the original total is positive, 0 otherwise, and lies between 0 and 100 |
| `Recap.ChangePercent` | src/main.rs:82-86 | the per-file change percentage is (compressed − original) / original × 100 for a positive original and 0 for an empty one; it is at least −100, non-positive when the file shrank and non-negative when it grew |
| `Recap.Block` | src/main.rs:82-96 | one per-file block: the result with its change percentage; `PerFileEvents` places each block at its result's own index, and `ChangePercent` gives its value |
| `Recap.Shown` | src/main.rs:76-80 | a result's block is shown only from level 2; at level 2 exactly the non-Success results; from level 3 every result |
| `Recap.RecapEvents` | src/main.rs:51-125 | no events for an empty input, at most one event per result plus one, and the summary last whenever verbosity is positive; `RecapTiers`, `RecapSilent` and `SummaryOnceAtEnd` characterize it |
| `Recap.PerFileEvents` | src/main.rs:76-102 | the per-file blocks are at most one per result, each carries the result at its own index, and their indices strictly increase (input order) |
| `Recap.PerFileMembership` | src/main.rs:76-80 | the result at index i gets a block exactly when its status is shown at the current verbosity |
| `Recap.SilentBelowTwo` | src/main.rs:76 | at verbosity 0 or 1 no per-file block is emitted |
| `Recap.RecapTiers` | src/main.rs:76-80 | in the whole recap: no blocks below 2; at 2, a block exactly for Skipped and Error results; at 3 and above, a block for every result |
| `Recap.RecapTiersMonotone` | src/main.rs:76-80 | a higher verbosity emits every block that a lower one emits |
| `Recap.RecapSilent` | src/main.rs:51-125 | an empty result list, or verbosity 0, produces no output at all |
| `Recap.SummaryOnceAtEnd` | src/main.rs:105-124 | the summary is emitted at most once and only as the last event, and it is emitted exactly when verbosity is positive and there are results |
| `Recap.SummaryFigures` | src/main.rs:105-123 | the summary reports the number of results, the plain sums and counts, saved bytes no more than the original total, and a percentage between 0 and 100 that is 0 when the original total is 0 |
| `Recap.SummaryPercentValue` | src/main.rs:106-111 | the summary's saved bytes are the saturating difference of the original and compressed sums, and for a positive original total its percentage is saved / original total × 100 |
| `Recap.SummaryOf` | src/main.rs:105-123 | the summary's figures; `SummaryFigures` and `SummaryPercentValue` give the file count, the sums and counts, the saved bytes as the saturating difference and the percentage |
| `Recap.SummaryEvents` | src/main.rs:105 | the summary is emitted only when verbosity is positive; `SummaryOnceAtEnd` characterizes its place in the recap |
| `Recap.SummaryOrderIndependent` | src/main.rs:56-124 | reordering the results leaves the summary unchanged |
| `Recap.WriteRecapMessage` | src/main.rs:51-125 | the early return, the block loop with its skip of Success below level 3, and the summary emit exactly the events of the specification `RecapEvents` |
| `Orchestration.ParallelismCount` | src/main.rs:127-132 | the pool size never exceeds the available workers, never exceeds a positive request, is one of the two, and is all available workers for a request of 0 (so min(n, available) for n > 0) |
| `Orchestration.ParallelismCountExamples` | src/main.rs:192-211 | the six unit-test cases: (4,4)→4, (2,8)→2, (0,8)→8, (1,8)→1, (8,2)→2, (0,0)→0 |
| `Orchestration.IsQuiet` | src/main.rs:39 | a run is quiet exactly when the quiet flag is set or the level is Quiet |
| `Orchestration.EffectiveVerbosity` | src/main.rs:39-40 | the effective verbosity is a valid level, is 0 exactly for a quiet run, and otherwise equals the level's discriminant |
| `Orchestration.ParseJpegChromaSubsampling` | src/main.rs:178-186 | 444/422/420/411 map to the codec mode of the same number; every other value maps to Auto |
| `Orchestration.ChromaRoundTrip` | src/main.rs:178-186 | the chroma mapping is a bijection onto the codec's five modes (round trip in both directions) |
| `Orchestration.BuildCompressionOptions` | src/main.rs:153-176 | every argument lands in its own option field (compression group, resize group, destination group and each flag and setting), the chroma mode is mapped to the same-numbered codec mode, the base path is the discovered one, and valid arguments give well-formed options |
| `Orchestration.BuildCompressionOptionsInjective` | src/main.rs:153-176 | the copy loses nothing: equal options come only from equal compression, resize, destination, chroma, overwrite, format, suffix, keep-structure, keep-dates, EXIF, PNG level, JPEG baseline and zopfli settings and the same base path |
| `Orchestration.BuildIgnoresRunControl` | src/main.rs:153-176 | inputs, thread count, quiet, verbosity, recursion and dry run do not affect the compression options |
| `Orchestration.Run` | src/main.rs:19-49 | an empty file list stops the run before any stage; otherwise the pool size, verbosity, scan, options, compression and recap are chained as in `main`, the pool fits the host, the options are well formed, and a quiet run prints no recap |
| `Orchestration.DefaultRunIsSequentialWithSummaryOnly` | src/options.rs:80-97 | with the defaults (dry_run false, threads 1, verbose Progress) a run is not a dry run, uses at most one worker, emits no per-file block for any result, and reports only the summary for non-empty input, or nothing when quiet |

## Left out

- Formatting of the recap (`human_bytes`, `println!`, the `{:.2}` rounding, and the message line printed only when non-empty). Events carry the values instead.
- Floating-point percentages. `SavedPercent` and `ChangePercent` use exact `real` arithmetic, so f64 rounding is not modelled.
- The u64 running sums and the usize counters of the fold overflowing: totals are `nat`.
- The rayon global thread pool and `build_global().unwrap_or_default()`, which ignores a pool that cannot be built. `Run` only computes the pool size. The host parallelism, with its fallback of 1, is the parameter `available`.
- The progress bar (`setup_progress_bar`, `finish`). It is an opaque UI object.
- The "No files to compress" message on standard error. The model only records that the run stops (`NoFiles`).
- `scan_files`, `start_compression` and the compressor module: path resolution, resize planning, the overwrite decision and the codec call. Their source is not part of this model. `Run` takes them as opaque function parameters.
- Argument parsing, help text and parse errors. The group, conflict and default rules are the predicates `ValidArgs` and `ParserAccepts`.
- Ranges stated only in help text: quality 0-100, PNG level 0-6, and keep-structure only with `-R`. No attribute enforces them, so they are not part of `ValidArgs`.
