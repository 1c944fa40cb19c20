# odbc2parquet: sizing policy, insert statement and command-line checks

odbc2parquet moves data between ODBC data sources and Apache Parquet files. The `query`
command fetches a result set in batches and writes each batch as a row group, possibly
spread over several files. The `insert` command reads a parquet file row group by row
group and inserts it into a table. This project models the decision logic around those
transfers:

- the batch sizing policy (`BatchSizeLimit`): how many rows one fetch batch holds, given a
  row limit, a memory limit or both, and the memory each row's buffers need;
- the file splitting policy (`FileSizeLimit`): when the writer closes the current file and
  starts the next one;
- the INSERT statement generated from a table name and the parquet column names;
- the insert loop's buffer handling: the buffer starts with room for one row, grows to the
  size of any larger row group, and the statement is prepared again each time it grows;
- the query options with their connection-string defaults and the two builders;
- the command line's extra validation, its log verbosity and its colour choice.

Modules:

- `Wrappers` holds `Option`, `Result` and `Outcome`. `Ints` holds the unsigned integer
  ranges `u8`, `u32`, `u64` and `usize`. The target is 64-bit, so `usize` has the range of `u64`.
- `SizeLimits` models `src/query/batch_size_limit.rs`.
- `Insert` models the statement text of `src/insert.rs`.
- `InsertBuffer` models the loop of `src/insert.rs`.
- `Model` models `src/model.rs`.
- `Cli` models `src/main.rs`.

Byte sizes (`ByteSize` in the Rust code) are plain byte counts in `u64`. The Rust code's
`FileSizeLimit::None` is called `Unlimited` here, so that it does not clash with
`Option.None`.

## Model

| member | source | states |
|---|---|---|
| SizeLimits.NewFileSizeLimit | src/query/batch_size_limit.rs:31-38 | The result is well formed: a row-group bound is never zero. It is unlimited iff no row-group bound and no threshold are given. It is a size limit iff only a threshold is given, a row-group limit iff only a bound is given, and both iff both are given. |
| SizeLimits.NewFileSizeLimitRoundTrip | src/query/batch_size_limit.rs:31-38 | Reading the configuration back from a built limit returns the inputs. Every well-formed limit is built from its own configuration. |
| SizeLimits.OutputIsSplitted | src/query/batch_size_limit.rs:40-43 | For a well-formed limit, the output is split iff the limit is configured with a row-group bound or a size threshold, i.e. is not the `(0, None)` configuration. |
| SizeLimits.OutputIsSplittedIffSomeSplit | src/query/batch_size_limit.rs:40-43 | `output_is_splitted` holds iff some row-group count and some file size make the limit start a new file. So "might split" is exact. |
| SizeLimits.OutputIsSplittedIffConfigured | src/query/batch_size_limit.rs:31-43 | The output is split iff a row-group bound or a size threshold is configured. |
| SizeLimits.ShouldStartNewFile | src/query/batch_size_limit.rs:45-54 | Unlimited never starts a new file. A row-group limit starts one exactly at positive multiples of its bound. A size limit starts one once the file has reached the threshold. Both starts one when either condition holds. |
| SizeLimits.PositiveMultipleIff | src/query/batch_size_limit.rs:48 | The remainder test `n != 0 && n % k == 0` holds iff `n` is a positive multiple of `k`. |
| SizeLimits.ShouldStartNewFileMonotoneInSize | src/query/batch_size_limit.rs:45-54 | If a file is large enough to be closed, any larger file is too, for every kind of limit. |
| SizeLimits.BothIsDisjunction | src/query/batch_size_limit.rs:50-52 | A combined limit decides exactly as the disjunction of its row-group part and its size part. |
| SizeLimits.RowGroupsOfThreeExample | src/query/batch_size_limit.rs:48 | With three row groups per file, a new file starts after 3 and 6 row groups, not at 0, 1, 2, 4 or 5. |
| SizeLimits.NewBatchSizeLimit | src/query/batch_size_limit.rs:66-77 | A row limit alone gives `Rows`. A memory limit alone gives `Bytes`. Both limits give `Both`. Neither gives `Both` with the defaults of 65535 rows and 2 GiB. |
| SizeLimits.ToNumRows | src/query/batch_size_limit.rs:83-98 | Fails iff the memory is smaller than one row, and the error carries the limit and the per-row size. Otherwise it returns the number of whole rows that fit. |
| SizeLimits.BatchSizeInRows | src/query/batch_size_limit.rs:79-108 | A row limit is returned unchanged. With a memory limit, the result is an error iff one row does not fit, and the error names the memory limit and the row size. Otherwise a memory limit alone gives `memory / rowSize` rows, and both limits give the smaller of the row limit and `memory / rowSize`. |
| SizeLimits.BatchSizeIsLargestAdmissible | src/query/batch_size_limit.rs:79-108 | A successful batch size satisfies every configured limit: at most the row limit, and buffers within the memory limit. It is also the largest number of rows that does so. |
| SizeLimits.BothIsMinimum | src/query/batch_size_limit.rs:103-106 | With both limits and at least one row fitting, the result is the smaller of the row limit and the row count the memory allows. |
| SizeLimits.DefaultBatchSize | src/query/batch_size_limit.rs:7-15 | Under the default limits a batch never exceeds 65535 rows or 2 GiB of buffers. It fails only for rows larger than 2 GiB. |
| SizeLimits.DivIsLargestFit | src/query/batch_size_limit.rs:84 | Integer division by the row size gives the largest number of rows whose buffers fit into the memory. |
| SizeLimits.DivZeroIff | src/query/batch_size_limit.rs:84-85 | The quotient is zero iff the memory is smaller than one row, which is the error condition. |
| Insert.InsertStatementPlaceholders | src/insert.rs:89-97 | The statement contains one `?` per column, plus any `?` inside the table name or the column names. |
| Insert.PlaceholderPerColumn | src/insert.rs:89-97 | When no identifier contains a `?`, the statement has exactly as many parameter markers as columns. |
| Insert.InsertStatementTableVerbatim | src/insert.rs:97 | The statement begins with `INSERT INTO ` followed by the table name, unchanged. |
| Insert.ColumnListInStatement | src/insert.rs:91-97 | The table name is followed by ` (` and then by the comma-separated column list, unchanged. |
| Insert.InsertStatementColumnVerbatim | src/insert.rs:91-97 | Every column name appears unchanged at its own position in the column list, in the given order. |
| Insert.JoinPartAt | src/insert.rs:91 | Joining puts each part unchanged at its offset, and every part after the first is preceded by the separator. |
| Insert.Join | src/insert.rs:91 | Joining no parts gives the empty text (NoColumnsExample shows the resulting statement). Otherwise the joined text is as long as all parts plus one separator between each two; JoinPartAt and JoinOccurrences say where each part sits and what it contributes. |
| Insert.InsertStatementText | src/insert.rs:89-100 | The statement starts with `INSERT INTO ` and ends with `);`, for any table and any column list, including an empty one. InsertStatementTableVerbatim, ColumnListInStatement, InsertStatementColumnVerbatim, ValuesListInStatement and InsertStatementPlaceholders say what lies between. |
| Insert.ValuesListInStatement | src/insert.rs:92-97 | Right after the column list comes `) VALUES (`, then one `?` per column separated by `, `, and then `);` ends the statement. |
| Insert.JoinOccurrences | src/insert.rs:91-96 | Joining adds a character's occurrences in the separator once between each two parts and adds nothing else. |
| Insert.Placeholders | src/insert.rs:92-95 | One `?` per column, and nothing else. |
| Insert.NoColumnsExample | src/insert.rs:91-97 | With no columns, both lists are empty: the statement is exactly `INSERT INTO t () VALUES ();`. |
| Insert.InsertStatementExample | src/insert.rs:89-100 | Table `t` with columns `a` and `b` gives `INSERT INTO t (a, b) VALUES (?, ?);`. |
| InsertBuffer.InsertRowGroups | src/insert.rs:46-84 | The loop makes one step per row group and binds exactly that group's rows. The rows bound never exceed the buffer. The buffer is replaced, and the statement prepared again, iff the group has more rows than the current buffer holds. A replaced buffer has exactly that many rows; otherwise it keeps its capacity. The final capacity is the largest row count, but at least one. The statement is prepared once plus once per growth. |
| InsertBuffer.InsertStepsFollowGrowthRule | src/insert.rs:66-75 | Steps that keep the loop's per-row-group promises are exactly the steps of the growth rule, so the recorded capacity never decreases from one row group to the next. |
| InsertBuffer.CapacityIsLeastUpperBound | src/insert.rs:46-67 | The capacity after a sequence of row groups is at least one and covers every row count. It is either one or one of the row counts. |
| InsertBuffer.CapacityMonotone | src/insert.rs:66-67 | Seeing more row groups never shrinks the capacity. |
| InsertBuffer.GrowthRuleStepFacts | src/insert.rs:66-75 | Under the growth rule, every step binds no more rows than its buffer holds. A replaced buffer has exactly the new row count, and a kept buffer has its old capacity. |
| InsertBuffer.GrowthRuleMonotone | src/insert.rs:66-74 | Under the growth rule, the buffer capacity never decreases from one row group to the next. |
| InsertBuffer.GrowthExample | src/insert.rs:46-74 | Row groups of 1, 50, 10 and 200 rows give capacities 1, 50, 50 and 200, with two regrowths. |
| Model.FromConnectionString | src/model.rs:169-197 | Sets the given connection string, query and output file. Every other option takes its default: no batch limits, no row-group bound, no threshold, column length limit 4096, suffix length 2, zstd without level, automatic encoding, all flags off. |
| Model.DefaultsSelectDefaultPolicies | src/model.rs:169-197 | Default options write a single file, and batches are bounded by both default limits. |
| Model.WithFileSizeThreshold | src/model.rs:199-202 | The threshold becomes exactly the given one, replacing any earlier one. Every other field is unchanged. |
| Model.WithColumnLengthLimit | src/model.rs:204-207 | The column length limit becomes the given one. Every other field is unchanged. |
| Model.BuildersCommute | src/model.rs:199-207 | The two builders touch disjoint fields, so the order in which they are applied does not matter. |
| Model.BuildersReplace | src/model.rs:199-207 | Applying a builder twice equals applying only the second call. |
| Model.ThresholdSplitsOutput | src/model.rs:199-202 | Once a threshold is set, the output is split by size. The row-group bound also applies iff one was configured. Batch sizing is unaffected. |
| Cli.PerformExtraValidation | src/main.rs:79-91 | Only a query whose output is not a file can fail. It fails with the threshold conflict iff a threshold is set. It fails with the row-group conflict iff no threshold is set and a row-group bound is. Every other command passes. |
| Cli.ValidationIffUnsplitOrFile | src/main.rs:79-91 | A query passes validation iff its output is a file or its file-splitting policy never splits. |
| Cli.ValidatedStreamNeverSplits | src/main.rs:79-91 | A validated query to standard output never starts a second file, whatever the row-group count and size. |
| Cli.DefaultQueryValidates | src/main.rs:79-91 | Options built from a connection string pass validation, both as built and after either builder alone or both builders are applied. |
| Cli.Verbosity | src/main.rs:98-104 | Verbosity is zero iff `-q` is given. Otherwise it is one more than the number of `-v`, and never above 256. |
| Cli.VerbosityMatchesDocumentation | src/main.rs:26-31 | The verbosity selects the documented levels: errors only with `-q`, warnings by default, info with `-v`, debug with `-vv`, trace from `-vvv` on. |
| Cli.ColorChoiceOf | src/main.rs:106-110 | Colours are never used iff `--no-color` is given. Otherwise the logger chooses. |

## Left out

- Logging initialisation, the ODBC environment, listing drivers and data sources, and shell completions: they are I/O or calls into libraries. Of the logging library only its verbosity-to-level mapping is modelled, in `Cli.MostDetailedLevel`. That mapping is an assumption about the library: 0 errors, 1 warnings, 2 info, 3 debug, beyond that trace.
- Command-line parsing: clap's handling of flags and defaults, and `ByteSize` parsing. The model starts from the parsed values.
- Connecting, preparing, binding, executing, and reading or writing parquet: these are all I/O. Their error returns (`?` in the Rust code) are left out, so the insert loop is reduced to its buffer handling.
- The mapping from parquet column types to ODBC buffer descriptions (`parquet_type_to_odbc_buffer_desc`): `src/input` is not part of this model.
- The parquet-side buffer `ParquetBuffer`: `src/parquet_buffer.rs` is not part of this model.
- The query pipeline that calls `batch_size_in_rows` and `should_start_new_file`, and the sequential and double-buffered fetching: `src/query` beyond the limits file is not part of this model.
- The 32-bit build, whose default memory limit is 1 GiB: the model fixes a 64-bit target.
- The `unfinished` feature's `exec` command: it is behind a feature flag.
- SizeLimits.BatchSizeInRows: requires a nonzero row size whenever a memory limit is present. In the Rust code a zero row size divides by zero and panics.
- SizeLimits.ToNumRows: requires a nonzero row size, for the same reason: the `to_num_rows` closure divides by it and panics on zero.
- SizeLimits.BatchSizeInRows: the conversion of the memory limit to `usize` (`try_into().unwrap()`) is not modelled. It cannot fail on a 64-bit target.
- SizeLimits.ShouldStartNewFile: requires a well-formed limit, one without a zero row-group bound. A zero bound would divide by zero in `should_start_new_file`. `NewFileSizeLimit` never builds one, and the constructors are not used elsewhere in the modelled code.
- InsertBuffer.InsertRowGroups: row counts are natural numbers. The `expect` panic on a negative row count read from the file metadata is not modelled.
- Compression and encodings: the compression variant and the per-column parquet encodings are kept as the names given on the command line. Their parsing belongs to `src/enum_args.rs`, which is not part of this model.
- The documentation of `--batch-size-memory` (src/model.rs:26-27) says that without `--batch-size-row` no memory limit applies. The code applies both defaults when neither limit is given and no row limit when only memory is given. The model follows the code; the documentation at src/model.rs:17-20 agrees with it.
