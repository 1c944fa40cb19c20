/**
 * The sizing policy of the query direction: how many rows one fetch batch holds
 * (`BatchSizeLimit`) and when the output moves on to a new file (`FileSizeLimit`).
 */
module SizeLimits {
  import opened Wrappers
  import opened Ints

  /** Default memory budget of one fetch batch on a 64-bit target: 2 GiB. */
  const DEFAULT_BATCH_SIZE_BYTES: u64 := 2 * 1024 * 1024 * 1024

  /** Default row budget of one fetch batch: the largest 16-bit unsigned value, because some
      drivers keep the fetch size in a 16-bit integer. */
  const DEFAULT_BATCH_SIZE_ROWS: usize := 65535

  // ---------------------------------------------------------------------------------------------
  // File splitting
  // ---------------------------------------------------------------------------------------------

  /** How the size of an individual output file is limited. `Unlimited` is `FileSizeLimit::None` in the Rust code:
      everything goes into one file. */
  datatype FileSizeLimit =
    | Unlimited
    | RowGroups(rowGroups: u32)
    | Size(size: u64)
    | Both(rowGroups: u32, size: u64)

  /** A row-group bound is used as a divisor, so it must not be zero. Every value built by
      `NewFileSizeLimit` has this property. */
  predicate WellFormed(l: FileSizeLimit) {
    (l.RowGroups? || l.Both?) ==> l.rowGroups != 0
  }

  /** Builds the limit from the number of row groups per file (0 meaning no bound) and the
      optional byte threshold. */
  function NewFileSizeLimit(numRowGroups: u32, threshold: Option<u64>): (l: FileSizeLimit)
    ensures WellFormed(l)
    ensures l.Unlimited? <==> numRowGroups == 0 && threshold.None?
    ensures l.Size? <==> numRowGroups == 0 && threshold.Some?
    ensures l.RowGroups? <==> numRowGroups != 0 && threshold.None?
    ensures l.Both? <==> numRowGroups != 0 && threshold.Some?
  {
    match (numRowGroups, threshold)
    case (0, None) => Unlimited
    case (0, Some(size)) => Size(size)
    case (n, None) => RowGroups(n)
    case (n, Some(size)) => FileSizeLimit.Both(n, size)
  }

  /** The configuration a limit was built from: the inverse of `NewFileSizeLimit`. */
  function Configuration(l: FileSizeLimit): (u32, Option<u64>) {
    match l
    case Unlimited => (0, None)
    case RowGroups(n) => (n, None)
    case Size(s) => (0, Some(s))
    case Both(n, s) => (n, Some(s))
  }

  /** `NewFileSizeLimit` loses nothing of its configuration, and every well-formed limit is
      built by it: the two are a bijection between configurations and well-formed limits. */
  lemma NewFileSizeLimitRoundTrip(numRowGroups: u32, threshold: Option<u64>, l: FileSizeLimit)
    ensures Configuration(NewFileSizeLimit(numRowGroups, threshold)) == (numRowGroups, threshold)
    ensures WellFormed(l) ==> NewFileSizeLimit(Configuration(l).0, Configuration(l).1) == l
  {
  }

  /** `true` if the output (might) be split across several files: for a well-formed limit,
      exactly when it was configured with a row-group bound or a size threshold. */
  function OutputIsSplitted(l: FileSizeLimit): (r: bool)
    ensures WellFormed(l) ==> (r <==> Configuration(l) != (0, None))
  {
    !l.Unlimited?
  }

  /** `k` is a positive multiple of `n`. */
  ghost predicate IsPositiveMultiple(k: nat, n: nat) {
    exists j: nat :: 1 <= j && k == j * n
  }

  /** Whether the pipeline closes the current file and starts a new one, given the number of
      row groups (batches) written so far and the size of the current file in bytes. */
  function ShouldStartNewFile(l: FileSizeLimit, numBatch: u32, currentFileSize: u64): (r: bool)
    requires WellFormed(l)
    ensures l.Unlimited? ==> !r
    ensures l.RowGroups? ==> (r <==> IsPositiveMultiple(numBatch, l.rowGroups))
    ensures l.Size? ==> (r <==> currentFileSize >= l.size)
    ensures l.Both? ==> (r <==> IsPositiveMultiple(numBatch, l.rowGroups) || currentFileSize >= l.size)
  {
    match l
    case Unlimited => false
    case RowGroups(n) =>
      PositiveMultipleIff(numBatch, n);
      numBatch != 0 && numBatch % n == 0
    case Size(s) => currentFileSize >= s
    case Both(n, s) =>
      PositiveMultipleIff(numBatch, n);
      (numBatch != 0 && numBatch % n == 0) || currentFileSize >= s
  }

  /** Quotient and remainder are unique: any decomposition `k == q * n + r` with `r < n` is
      the one integer division computes. */
  lemma DivModUnique(k: nat, n: nat, q: nat, r: nat)
    requires n > 0 && r < n
    requires k == q * n + r
    ensures k / n == q && k % n == r
  {
    var q', r' := k / n, k % n;
    assert k == q' * n + r';
    if q < q' {
      MulMonotone(q + 1, q', n);
    } else if q' < q {
      MulMonotone(q' + 1, q, n);
    }
  }

  /** The remainder test `num_batch != 0 && num_batch % row_groups == 0` of `should_start_new_file`
      is exactly "a positive multiple". */
  lemma PositiveMultipleIff(k: nat, n: nat)
    requires n > 0
    ensures (k != 0 && k % n == 0) <==> IsPositiveMultiple(k, n)
  {
    if k != 0 && k % n == 0 {
      var j := k / n;
      assert k == j * n;
      assert 1 <= j;
    }
    if IsPositiveMultiple(k, n) {
      var j: nat :| 1 <= j && k == j * n;
      DivModUnique(k, n, j, 0);
    }
  }

  /** "Might split" means what it says: a limit reports a split output exactly when some
      number of row groups and some file size make it start a new file. */
  lemma OutputIsSplittedIffSomeSplit(l: FileSizeLimit)
    requires WellFormed(l)
    ensures OutputIsSplitted(l) <==>
              exists k: u32, s: u64 :: ShouldStartNewFile(l, k, s)
  {
    match l
    case Unlimited =>
    case RowGroups(n) =>
      assert IsPositiveMultiple(n, n) by { assert n == 1 * n; }
      assert ShouldStartNewFile(l, n, 0);
    case Size(s) =>
      assert ShouldStartNewFile(l, 0, s);
    case Both(n, s) =>
      assert ShouldStartNewFile(l, 0, s);
  }

  /** The output is split exactly when a row-group bound or a size threshold is configured. */
  lemma OutputIsSplittedIffConfigured(numRowGroups: u32, threshold: Option<u64>)
    ensures OutputIsSplitted(NewFileSizeLimit(numRowGroups, threshold)) <==>
              (numRowGroups != 0 || threshold.Some?)
  {
  }

  /** Once a file is large enough to be closed, it stays large enough: the decision is
      monotone in the file size, for every kind of limit. */
  lemma ShouldStartNewFileMonotoneInSize(l: FileSizeLimit, numBatch: u32, s1: u64, s2: u64)
    requires WellFormed(l)
    requires s1 <= s2
    ensures ShouldStartNewFile(l, numBatch, s1) ==> ShouldStartNewFile(l, numBatch, s2)
  {
  }

  /** A combined limit is exactly the disjunction of its two parts. */
  lemma BothIsDisjunction(n: u32, s: u64, numBatch: u32, currentFileSize: u64)
    requires n != 0
    ensures ShouldStartNewFile(FileSizeLimit.Both(n, s), numBatch, currentFileSize)
            == (ShouldStartNewFile(RowGroups(n), numBatch, currentFileSize)
                || ShouldStartNewFile(Size(s), numBatch, currentFileSize))
  {
  }

  /** With three row groups per file, row-group counts 0 through 6 give
      false, false, false, true, false, false, true. */
  lemma RowGroupsOfThreeExample()
    ensures !ShouldStartNewFile(RowGroups(3), 0, 0)
    ensures !ShouldStartNewFile(RowGroups(3), 1, 0)
    ensures !ShouldStartNewFile(RowGroups(3), 2, 0)
    ensures ShouldStartNewFile(RowGroups(3), 3, 0)
    ensures !ShouldStartNewFile(RowGroups(3), 4, 0)
    ensures !ShouldStartNewFile(RowGroups(3), 5, 0)
    ensures ShouldStartNewFile(RowGroups(3), 6, 0)
  {
  }

  // ---------------------------------------------------------------------------------------------
  // Batch sizing
  // ---------------------------------------------------------------------------------------------

  /** A batch is limited by a number of rows, by the memory of its buffers, or by both. */
  datatype BatchSizeLimit =
    | Rows(rows: usize)
    | Bytes(memory: u64)
    | Both(rows: usize, memory: u64)

  /** Builds the limit from the optional row and memory limits; with neither, both defaults
      apply together. */
  function NewBatchSizeLimit(numRowsLimit: Option<usize>, memoryLimit: Option<u64>): (l: BatchSizeLimit)
    ensures numRowsLimit.Some? && memoryLimit.None? ==> l == Rows(numRowsLimit.value)
    ensures numRowsLimit.None? && memoryLimit.Some? ==> l == Bytes(memoryLimit.value)
    ensures numRowsLimit.Some? && memoryLimit.Some? ==>
              l == BatchSizeLimit.Both(numRowsLimit.value, memoryLimit.value)
    ensures numRowsLimit.None? && memoryLimit.None? ==>
              l == BatchSizeLimit.Both(DEFAULT_BATCH_SIZE_ROWS, DEFAULT_BATCH_SIZE_BYTES)
  {
    match (numRowsLimit, memoryLimit)
    case (Some(rows), None) => Rows(rows)
    case (None, Some(memory)) => Bytes(memory)
    case (None, None) => BatchSizeLimit.Both(DEFAULT_BATCH_SIZE_ROWS, DEFAULT_BATCH_SIZE_BYTES)
    case (Some(rows), Some(memory)) => BatchSizeLimit.Both(rows, memory)
  }

  /** The memory limit is too small to hold a single row; carries the limit and the per-row
      cost so that the message can name both. */
  datatype BatchError = InsufficientMemory(memoryLimit: u64, memoryPerRow: usize)

  /** Buffer memory taken by a batch of `n` rows at `perRow` bytes each: one row's worth
      per row. */
  function BatchMemory(n: nat, perRow: nat): nat {
    if n == 0 then 0 else BatchMemory(n - 1, perRow) + perRow
  }

  lemma {:induction false} BatchMemoryIsProduct(n: nat, perRow: nat)
    ensures BatchMemory(n, perRow) == n * perRow
  {
    if n > 0 {
      BatchMemoryIsProduct(n - 1, perRow);
    }
  }

  /** Fewer rows never take more memory. */
  lemma {:induction false} BatchMemoryMonotone(a: nat, b: nat, perRow: nat)
    requires a <= b
    ensures BatchMemory(a, perRow) <= BatchMemory(b, perRow)
  {
    if a < b {
      BatchMemoryMonotone(a, b - 1, perRow);
    }
  }

  /** A batch of `n` rows at `perRow` bytes each fits into `memory` bytes. */
  predicate Fits(n: nat, perRow: nat, memory: nat) {
    BatchMemory(n, perRow) <= memory
  }

  /** A batch of `n` rows satisfies every limit `l` imposes. */
  predicate Admissible(l: BatchSizeLimit, perRow: nat, n: nat) {
    && (!l.Bytes? ==> n <= l.rows)
    && (!l.Rows? ==> Fits(n, perRow, l.memory))
  }

  /** Number of rows that fit into `memory`, failing when not even one does. */
  function ToNumRows(memory: u64, perRow: usize): (r: Result<usize, BatchError>)
    requires perRow > 0
    ensures r.Err? <==> memory < perRow
    ensures r.Err? ==> r.error == InsufficientMemory(memory, perRow)
    ensures r.Ok? ==> r.value == memory / perRow
  {
    DivZeroIff(memory, perRow);
    var rows := memory / perRow;
    if rows == 0 then Err(InsufficientMemory(memory, perRow)) else Ok(rows)
  }

  /** Number of rows of one fetch batch when each row takes `perRow` bytes of buffer memory.
      `batch_size_in_rows` divides by `perRow` whenever a memory limit is present. */
  function BatchSizeInRows(l: BatchSizeLimit, perRow: usize): (r: Result<usize, BatchError>)
    requires l.Rows? || perRow > 0
    ensures l.Rows? ==> r == Ok(l.rows)
    ensures !l.Rows? ==> (r.Err? <==> l.memory < perRow)
    ensures r.Err? ==> r.error == InsufficientMemory(l.memory, perRow)
    ensures l.Bytes? && r.Ok? ==> r.value == l.memory / perRow
    ensures l.Both? && r.Ok? ==> r.value <= l.rows && r.value <= l.memory / perRow
    ensures l.Both? && r.Ok? ==> r.value == l.rows || r.value == l.memory / perRow
  {
    if l.Rows? then Ok(l.rows)
    else
      var limitRows := ToNumRows(l.memory, perRow);
      if limitRows.Err? || l.Bytes? then limitRows
      else Ok(if limitRows.value < l.rows then limitRows.value else l.rows)
  }

  /** Integer division finds the largest number of rows that fits. */
  lemma DivIsLargestFit(memory: nat, perRow: nat)
    requires perRow > 0
    ensures Fits(memory / perRow, perRow, memory)
    ensures forall n: nat :: Fits(n, perRow, memory) ==> n <= memory / perRow
  {
    var q := memory / perRow;
    assert memory == q * perRow + memory % perRow;
    BatchMemoryIsProduct(q, perRow);
    forall n: nat | Fits(n, perRow, memory)
      ensures n <= q
    {
      if n > q {
        BatchMemoryIsProduct(n, perRow);
        MulMonotone(q + 1, n, perRow);
      }
    }
  }

  /** Not even one row fits exactly when the memory is smaller than one row. */
  lemma DivZeroIff(memory: nat, perRow: nat)
    requires perRow > 0
    ensures memory / perRow == 0 <==> memory < perRow
  {
  }

  lemma MulMonotone(a: nat, b: nat, c: nat)
    requires a <= b
    ensures a * c <= b * c
  {
  }

  /** A successful batch size is the largest number of rows that satisfies every limit at
      once, so in particular its buffers never exceed the memory limit. */
  lemma {:induction false} BatchSizeIsLargestAdmissible(l: BatchSizeLimit, perRow: usize)
    requires l.Rows? || perRow > 0
    ensures BatchSizeInRows(l, perRow).Ok? ==> Admissible(l, perRow, BatchSizeInRows(l, perRow).value)
    ensures BatchSizeInRows(l, perRow).Ok? ==>
              forall n: nat :: Admissible(l, perRow, n) ==> n <= BatchSizeInRows(l, perRow).value
  {
    if !l.Rows? {
      DivIsLargestFit(l.memory, perRow);
      if l.Both? && l.rows < l.memory / perRow {
        BatchMemoryMonotone(l.rows, l.memory / perRow, perRow);
      }
    }
  }

  /** With both limits set and the memory limit holding at least one row, the result is the
      smaller of the row limit and the memory-derived row count. */
  lemma BothIsMinimum(rows: usize, memory: u64, perRow: usize)
    requires perRow > 0
    requires memory >= perRow
    ensures BatchSizeInRows(BatchSizeLimit.Both(rows, memory), perRow).Ok?
    ensures var v := BatchSizeInRows(BatchSizeLimit.Both(rows, memory), perRow).value;
            v <= rows && v <= memory / perRow && (v == rows || v == memory / perRow)
  {
  }

  /** The default limits: never more than 65535 rows and never more than 2 GiB of buffers;
      only a row larger than 2 GiB is refused. */
  lemma DefaultBatchSize(perRow: usize)
    requires perRow > 0
    ensures var r := BatchSizeInRows(NewBatchSizeLimit(None, None), perRow);
            && (r.Err? <==> perRow > DEFAULT_BATCH_SIZE_BYTES)
            && (r.Ok? ==> r.value <= DEFAULT_BATCH_SIZE_ROWS
                          && Fits(r.value, perRow, DEFAULT_BATCH_SIZE_BYTES))
  {
    BatchSizeIsLargestAdmissible(NewBatchSizeLimit(None, None), perRow);
  }
}
