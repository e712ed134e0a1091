/** Two ways to count the maximal free runs of a block: the allocator's run loop and fsck's
    around/inside mask scan. Both are proved to compute `GroupSpec.RunCount`. */
module Runs {
  import opened GroupSpec

  /** The allocator's run loop (also used by resize). `counts[k]` receives the number of maximal runs
      of length `k`; a wholly free block is not counted. */
  method CountFreeRuns(free: seq<bool>, base: nat, f: nat) returns (counts: seq<int>)
    requires 0 < f && base + f <= |free|
    ensures |counts| == f + 1
    ensures forall k | 1 <= k < f :: counts[k] == RunCount(free[base..base + f], k)
    ensures counts[0] == 0 && counts[f] == 0
  {
    ghost var blk := free[base..base + f];
    counts := seq(f + 1, _ => 0);
    var i := 0;
    while i < f
      invariant i <= f
      invariant |counts| == f + 1 && counts[0] == 0 && counts[f] == 0
      invariant 0 < i < f && blk[i] ==> !blk[i - 1]
      invariant forall k | 1 <= k < f :: counts[k] == RunsBefore(blk, k, i)
    {
      var run := 0;
      while i + run < f && free[base + i + run]
        invariant i + run <= f
        invariant forall j | i <= j < i + run :: blk[j]
      {
        run := run + 1;
      }
      ghost var before := counts;
      if 0 < run && run < f {
        counts := counts[run := counts[run] + 1];
      }
      ghost var step := if run > 0 then run else 1;
      forall k | 1 <= k < f
        ensures counts[k] == RunsBefore(blk, k, i + step)
      {
        RunStep(blk, i, run, k);
      }
      i := i + (if run > 0 then run else 1);
    }
  }

  /** Passing over the run that starts at `i` (or over one used fragment) counts it once. */
  lemma RunStep(blk: seq<bool>, i: nat, run: nat, k: nat)
    requires i < |blk| && i + run <= |blk| && 1 <= k < |blk|
    requires forall j | i <= j < i + run :: blk[j]
    requires i + run == |blk| || !blk[i + run]
    requires 0 < i && blk[i] ==> !blk[i - 1]
    ensures RunsBefore(blk, k, i + (if run > 0 then run else 1))
         == RunsBefore(blk, k, i) + (if run == k then 1 else 0)
  {
    var step := if run > 0 then run else 1;
    assert IsRun(blk, i, k) <==> run == k;
    assert RunsBefore(blk, k, i + 1) == RunsBefore(blk, k, i) + (if run == k then 1 else 0);
    forall j | i + 1 <= j < i + step ensures !IsRun(blk, j, k) { assert blk[j - 1]; }
    RunsBeforeFlat(blk, k, i + 1, i + step);
  }
}
