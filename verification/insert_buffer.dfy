/**
 * The insert direction's transfer-buffer growth rule, applied row group by row group.
 */
module InsertBuffer {

  function Max(a: nat, b: nat): nat {
    if a < b then b else a
  }

  /** Capacity of the transfer buffer after the row groups with the given row counts: the
      largest row count seen, and never below the initial capacity of one row. */
  function CapacityAfter(rowCounts: seq<nat>): nat {
    if |rowCounts| == 0 then 1
    else Max(CapacityAfter(rowCounts[..|rowCounts| - 1]), rowCounts[|rowCounts| - 1])
  }

  /** `CapacityAfter` is the least upper bound of the row counts that is at least one: it
      covers every count and is either one or one of the counts. */
  lemma {:induction false} CapacityIsLeastUpperBound(rowCounts: seq<nat>)
    ensures CapacityAfter(rowCounts) >= 1
    ensures forall i :: 0 <= i < |rowCounts| ==> rowCounts[i] <= CapacityAfter(rowCounts)
    ensures CapacityAfter(rowCounts) == 1
            || exists i :: 0 <= i < |rowCounts| && rowCounts[i] == CapacityAfter(rowCounts)
  {
    if |rowCounts| > 0 {
      var init := rowCounts[..|rowCounts| - 1];
      CapacityIsLeastUpperBound(init);
      assert forall i :: 0 <= i < |init| ==> init[i] == rowCounts[i];
      if CapacityAfter(rowCounts) != 1 && CapacityAfter(rowCounts) != rowCounts[|rowCounts| - 1] {
        var i :| 0 <= i < |init| && init[i] == CapacityAfter(init);
        assert rowCounts[i] == CapacityAfter(rowCounts);
      }
    }
  }

  /** Capacity never shrinks as more row groups are seen. */
  lemma {:induction false} CapacityMonotone(rowCounts: seq<nat>, i: nat, j: nat)
    requires i <= j <= |rowCounts|
    ensures CapacityAfter(rowCounts[..i]) <= CapacityAfter(rowCounts[..j])
  {
    if i < j {
      CapacityMonotone(rowCounts, i, j - 1);
      assert rowCounts[..j][..j - 1] == rowCounts[..j - 1];
    }
  }

  /** Number of row groups that force the buffer to grow: those with more rows than the
      capacity left by the row groups before them. */
  function Regrowths(rowCounts: seq<nat>): nat {
    if |rowCounts| == 0 then 0
    else
      var init := rowCounts[..|rowCounts| - 1];
      Regrowths(init) + (if rowCounts[|rowCounts| - 1] > CapacityAfter(init) then 1 else 0)
  }

  /** What the insert loop did for one row group: how many rows it bound, whether it had to
      reallocate the buffer and prepare the statement again, and the buffer capacity used. */
  datatype RowGroupStep = RowGroupStep(numRows: nat, reprepared: bool, capacity: nat)

  /** The step the growth rule prescribes for row group `k`, given the row groups before it. */
  function StepAt(rowCounts: seq<nat>, k: nat): RowGroupStep
    requires k < |rowCounts|
  {
    RowGroupStep(rowCounts[k], rowCounts[k] > CapacityAfter(rowCounts[..k]),
                 CapacityAfter(rowCounts[..k + 1]))
  }

  lemma {:induction false} CapacityAfterOneMore(rowCounts: seq<nat>, k: nat)
    requires k < |rowCounts|
    ensures CapacityAfter(rowCounts[..k + 1]) == Max(CapacityAfter(rowCounts[..k]), rowCounts[k])
    ensures Regrowths(rowCounts[..k + 1])
            == Regrowths(rowCounts[..k]) + (if rowCounts[k] > CapacityAfter(rowCounts[..k]) then 1 else 0)
  {
    assert rowCounts[..k + 1][..k] == rowCounts[..k];
  }

  /** `steps` records, one entry per row group and in order, what the growth rule prescribes. */
  predicate FollowsGrowthRule(rowCounts: seq<nat>, steps: seq<RowGroupStep>) {
    && |steps| == |rowCounts|
    && forall k :: 0 <= k < |rowCounts| ==> steps[k] == StepAt(rowCounts, k)
  }

  lemma {:induction false} StepFacts(rowCounts: seq<nat>, k: nat)
    requires k < |rowCounts|
    ensures StepAt(rowCounts, k).numRows <= StepAt(rowCounts, k).capacity
    ensures !StepAt(rowCounts, k).reprepared ==>
              StepAt(rowCounts, k).capacity == CapacityAfter(rowCounts[..k])
    ensures StepAt(rowCounts, k).reprepared ==> StepAt(rowCounts, k).capacity == rowCounts[k]
  {
    CapacityAfterOneMore(rowCounts, k);
  }

  /** Under the growth rule the rows bound never exceed the buffer, a buffer that is not
      replaced keeps its capacity, and a replaced one has exactly the new row count. */
  lemma {:induction false} GrowthRuleStepFacts(rowCounts: seq<nat>, steps: seq<RowGroupStep>)
    requires FollowsGrowthRule(rowCounts, steps)
    ensures forall i :: 0 <= i < |rowCounts| ==> steps[i].numRows <= steps[i].capacity
    ensures forall i :: 0 <= i < |rowCounts| && steps[i].reprepared ==>
              steps[i].capacity == rowCounts[i]
    ensures forall i :: 0 <= i < |rowCounts| && !steps[i].reprepared ==>
              steps[i].capacity == CapacityAfter(rowCounts[..i])
  {
    forall k | 0 <= k < |rowCounts|
      ensures steps[k].numRows <= steps[k].capacity
      ensures steps[k].reprepared ==> steps[k].capacity == rowCounts[k]
      ensures !steps[k].reprepared ==> steps[k].capacity == CapacityAfter(rowCounts[..k])
    {
      StepFacts(rowCounts, k);
    }
  }

  /** Under the growth rule the capacity never decreases from one row group to the next. */
  lemma {:induction false} GrowthRuleMonotone(rowCounts: seq<nat>, steps: seq<RowGroupStep>)
    requires FollowsGrowthRule(rowCounts, steps)
    ensures forall i, j :: 0 <= i <= j < |rowCounts| ==> steps[i].capacity <= steps[j].capacity
  {
    forall k, l | 0 <= k <= l < |rowCounts|
      ensures steps[k].capacity <= steps[l].capacity
    {
      assert steps[k] == StepAt(rowCounts, k);
      assert steps[l] == StepAt(rowCounts, l);
      CapacityMonotone(rowCounts, k + 1, l + 1);
    }
  }

  /** The insert loop over the row groups of the input file, reduced to its buffer handling.
      The buffer starts with room for one row; a row group with more rows than the buffer
      holds replaces it with one of exactly that many rows, bound to a freshly prepared
      statement; then the row group's rows are bound and the statement executed once.
      `prepares` counts the statement preparations, including the initial one. */
  method InsertRowGroups(rowCounts: seq<nat>) returns (steps: seq<RowGroupStep>, finalCapacity: nat, prepares: nat)
    ensures |steps| == |rowCounts|
    ensures forall i :: 0 <= i < |rowCounts| ==> steps[i].numRows == rowCounts[i]
    ensures forall i :: 0 <= i < |rowCounts| ==> steps[i].numRows <= steps[i].capacity
    ensures forall i :: 0 <= i < |rowCounts| ==> (steps[i].reprepared <==> rowCounts[i] > CapacityAfter(rowCounts[..i]))
    ensures forall i :: 0 <= i < |rowCounts| && steps[i].reprepared ==> steps[i].capacity == rowCounts[i]
    ensures forall i :: 0 <= i < |rowCounts| && !steps[i].reprepared ==> steps[i].capacity == CapacityAfter(rowCounts[..i])
    ensures finalCapacity == CapacityAfter(rowCounts)
    ensures prepares == 1 + Regrowths(rowCounts)
  {
    var batchSize: nat := 1;
    prepares := 1;
    steps := [];
    var i := 0;
    while i < |rowCounts|
      invariant 0 <= i <= |rowCounts|
      invariant |steps| == i
      invariant batchSize == CapacityAfter(rowCounts[..i])
      invariant prepares == 1 + Regrowths(rowCounts[..i])
      invariant forall k :: 0 <= k < i ==> steps[k] == StepAt(rowCounts, k)
    {
      var numRows := rowCounts[i];
      var reprepared := false;
      CapacityAfterOneMore(rowCounts, i);
      if numRows > batchSize {
        batchSize := numRows;
        prepares := prepares + 1;
        reprepared := true;
      }
      steps := steps + [RowGroupStep(numRows, reprepared, batchSize)];
      i := i + 1;
    }
    assert rowCounts[..i] == rowCounts;
    finalCapacity := batchSize;
    GrowthRuleStepFacts(rowCounts, steps);
  }

  /** The per-row-group promises of `InsertRowGroups` pin down the growth rule exactly, so
      the capacities it records never decrease. */
  lemma {:induction false} InsertStepsFollowGrowthRule(rowCounts: seq<nat>, steps: seq<RowGroupStep>)
    requires |steps| == |rowCounts|
    requires forall i :: 0 <= i < |rowCounts| ==> steps[i].numRows == rowCounts[i]
    requires forall i :: 0 <= i < |rowCounts| ==> (steps[i].reprepared <==> rowCounts[i] > CapacityAfter(rowCounts[..i]))
    requires forall i :: 0 <= i < |rowCounts| && steps[i].reprepared ==> steps[i].capacity == rowCounts[i]
    requires forall i :: 0 <= i < |rowCounts| && !steps[i].reprepared ==> steps[i].capacity == CapacityAfter(rowCounts[..i])
    ensures FollowsGrowthRule(rowCounts, steps)
    ensures forall i, j :: 0 <= i <= j < |rowCounts| ==> steps[i].capacity <= steps[j].capacity
  {
    forall k | 0 <= k < |rowCounts|
      ensures steps[k] == StepAt(rowCounts, k)
    {
      CapacityAfterOneMore(rowCounts, k);
    }
    GrowthRuleMonotone(rowCounts, steps);
  }

  /** Row groups of 1, 50, 10 and 200 rows: the capacity goes 1, 50, 50, 200 and the buffer
      grows twice. */
  lemma GrowthExample()
    ensures CapacityAfter([1]) == 1
    ensures CapacityAfter([1, 50]) == 50
    ensures CapacityAfter([1, 50, 10]) == 50
    ensures CapacityAfter([1, 50, 10, 200]) == 200
    ensures Regrowths([1, 50, 10, 200]) == 2
  {
    assert [1, 50, 10, 200][..3] == [1, 50, 10];
    assert [1, 50, 10][..2] == [1, 50];
    assert [1, 50][..1] == [1];
    assert [1][..0] == [];
  }
}
