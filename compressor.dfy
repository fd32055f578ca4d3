/**
 * The values exchanged with the compression stage: the per-file result
 * the recap consumes, and the process-wide options `main` builds for it.
 * Only the fields the orchestration reads or writes are modelled.
 */
module Compressor {
  import Options

  datatype CompressionStatus = Success | Skipped | Error

  /** One per processed file; sizes are byte counts. */
  datatype CompressionResult = CompressionResult(
    originalPath: string,
    outputPath: string,
    originalSize: nat,
    compressedSize: nat,
    status: CompressionStatus,
    message: string)

  /** The codec's chroma-subsampling setting, mirrored locally. */
  datatype ChromaSubsampling = CS444 | CS422 | CS420 | CS411 | Auto

  /** Read-only options shared by every compression job. */
  datatype CompressionOptions = CompressionOptions(
    quality: Options.Option<Options.u8>,
    lossless: bool,
    outputFolder: Options.Option<string>,
    sameFolderAsInput: bool,
    overwritePolicy: Options.OverwritePolicy,
    format: Options.OutputFormat,
    suffix: Options.Option<string>,
    keepStructure: bool,
    width: Options.Option<Options.u32>,
    height: Options.Option<Options.u32>,
    longEdge: Options.Option<Options.u32>,
    shortEdge: Options.Option<Options.u32>,
    maxSize: Options.Option<Options.u8>,
    keepDates: bool,
    exif: bool,
    pngOptLevel: Options.u8,
    jpegChromaSubsampling: ChromaSubsampling,
    jpegBaseline: bool,
    zopfli: bool,
    basePath: string)
}
