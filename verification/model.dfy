/**
 * The options of the `query` and `insert` commands, the defaults a query gets when built from
 * a connection string, and the two builders that adjust it.
 */
module Model {
  import opened Wrappers
  import opened Ints
  import SizeLimits

  /** An input or output argument: a file path, or `-` for a standard stream. */
  datatype IoArg = StdStream | File(path: string)

  predicate IsFile(io: IoArg) {
    io.File?
  }

  datatype ConnectOpts = ConnectOpts(
    prompt: bool,
    connectionString: Option<string>,
    dsn: Option<string>,
    user: Option<string>,
    password: Option<string>)

  /** Text transfer encoding: UTF-16, the system locale, or whichever suits the platform. */
  datatype EncodingArgument = Utf16 | System | Auto

  /** Options of the `query` command. The compression variant and the per-column parquet
      encodings are kept as the names given on the command line. */
  datatype QueryOpt = QueryOpt(
    connectOpts: ConnectOpts,
    batchSizeRow: Option<usize>,
    batchSizeMemory: Option<u64>,
    rowGroupsPerFile: u32,
    sequentialFetching: bool,
    fileSizeThreshold: Option<u64>,
    columnLengthLimit: usize,
    columnCompressionDefault: string,
    columnCompressionLevelDefault: Option<u32>,
    encoding: EncodingArgument,
    preferVarbinary: bool,
    parquetColumnEncoding: seq<(string, string)>,
    driverDoesNotSupport64BitIntegers: bool,
    avoidDecimal: bool,
    suffixLength: usize,
    noEmptyFile: bool,
    output: IoArg,
    query: string,
    parameters: seq<string>)

  /** Options of the `insert` command. */
  datatype InsertOpt = InsertOpt(
    connectOpts: ConnectOpts,
    encoding: EncodingArgument,
    input: string,
    table: string)

  const DEFAULT_COLUMN_LENGTH_LIMIT: usize := 4096
  const DEFAULT_SUFFIX_LENGTH: usize := 2
  const DEFAULT_COMPRESSION: string := "zstd"

  /** Query options for a connection string, a query text and an output file, with every
      other option at its command-line default. */
  function FromConnectionString(connectionString: string, query: string, output: string): (o: QueryOpt)
    ensures o.connectOpts == ConnectOpts(false, Some(connectionString), None, None, None)
    ensures o.query == query && o.parameters == []
    ensures o.output == File(output)
    ensures o.batchSizeRow == None && o.batchSizeMemory == None
    ensures o.rowGroupsPerFile == 0 && o.fileSizeThreshold == None
    ensures o.columnLengthLimit == DEFAULT_COLUMN_LENGTH_LIMIT
    ensures o.suffixLength == DEFAULT_SUFFIX_LENGTH
    ensures o.encoding == Auto
    ensures !o.sequentialFetching && !o.preferVarbinary && !o.avoidDecimal
    ensures !o.driverDoesNotSupport64BitIntegers && !o.noEmptyFile
    ensures o.columnCompressionDefault == DEFAULT_COMPRESSION && o.columnCompressionLevelDefault == None
    ensures o.parquetColumnEncoding == []
  {
    QueryOpt(
      connectOpts := ConnectOpts(false, Some(connectionString), None, None, None),
      batchSizeRow := None,
      batchSizeMemory := None,
      rowGroupsPerFile := 0,
      sequentialFetching := false,
      fileSizeThreshold := None,
      columnLengthLimit := DEFAULT_COLUMN_LENGTH_LIMIT,
      columnCompressionDefault := DEFAULT_COMPRESSION,
      columnCompressionLevelDefault := None,
      encoding := Auto,
      preferVarbinary := false,
      parquetColumnEncoding := [],
      driverDoesNotSupport64BitIntegers := false,
      avoidDecimal := false,
      suffixLength := DEFAULT_SUFFIX_LENGTH,
      noEmptyFile := false,
      output := File(output),
      query := query,
      parameters := [])
  }

  /** The file-splitting policy these options select. */
  function FileSizeLimitOf(o: QueryOpt): SizeLimits.FileSizeLimit {
    SizeLimits.NewFileSizeLimit(o.rowGroupsPerFile, o.fileSizeThreshold)
  }

  /** The batch sizing policy these options select. */
  function BatchSizeLimitOf(o: QueryOpt): SizeLimits.BatchSizeLimit {
    SizeLimits.NewBatchSizeLimit(o.batchSizeRow, o.batchSizeMemory)
  }

  /** Default options write one file, in batches limited by both default limits. */
  lemma DefaultsSelectDefaultPolicies(connectionString: string, query: string, output: string)
    ensures var o := FromConnectionString(connectionString, query, output);
            && FileSizeLimitOf(o) == SizeLimits.Unlimited
            && !SizeLimits.OutputIsSplitted(FileSizeLimitOf(o))
            && BatchSizeLimitOf(o)
               == SizeLimits.BatchSizeLimit.Both(SizeLimits.DEFAULT_BATCH_SIZE_ROWS,
                                                 SizeLimits.DEFAULT_BATCH_SIZE_BYTES)
  {
  }

  /** Sets the file size threshold (the Rust builder is spelled `file_size_treshold`),
      replacing any earlier one. */
  function WithFileSizeThreshold(o: QueryOpt, threshold: u64): (r: QueryOpt)
    ensures r.fileSizeThreshold == Some(threshold)
    ensures r.(fileSizeThreshold := o.fileSizeThreshold) == o
  {
    o.(fileSizeThreshold := Some(threshold))
  }

  /** Sets the column length limit. */
  function WithColumnLengthLimit(o: QueryOpt, limit: usize): (r: QueryOpt)
    ensures r.columnLengthLimit == limit
    ensures r.(columnLengthLimit := o.columnLengthLimit) == o
  {
    o.(columnLengthLimit := limit)
  }

  /** The two builders touch disjoint fields, so their order does not matter; each replaces
      what an earlier call of itself set. */
  lemma BuildersCommute(o: QueryOpt, threshold: u64, limit: usize)
    ensures WithColumnLengthLimit(WithFileSizeThreshold(o, threshold), limit)
            == WithFileSizeThreshold(WithColumnLengthLimit(o, limit), threshold)
  {
  }

  lemma BuildersReplace(o: QueryOpt, t1: u64, t2: u64, l1: usize, l2: usize)
    ensures WithFileSizeThreshold(WithFileSizeThreshold(o, t1), t2) == WithFileSizeThreshold(o, t2)
    ensures WithColumnLengthLimit(WithColumnLengthLimit(o, l1), l2) == WithColumnLengthLimit(o, l2)
  {
  }

  /** Setting a threshold always splits the output, by size alone or together with the
      row-group bound already configured; the batch sizing is unaffected. */
  lemma ThresholdSplitsOutput(o: QueryOpt, threshold: u64)
    ensures var l := FileSizeLimitOf(WithFileSizeThreshold(o, threshold));
            && SizeLimits.OutputIsSplitted(l)
            && (l.Size? || l.Both?) && l.size == threshold
            && (l.Both? <==> o.rowGroupsPerFile != 0)
    ensures BatchSizeLimitOf(WithFileSizeThreshold(o, threshold)) == BatchSizeLimitOf(o)
  {
  }
}
