/**
 * The offset planner (`generateOffsets`): the page boundaries still to be requested
 * after the page already fetched at `startOffset`, for a listing of `total` entries.
 */
module Offsets {

  /** The listing endpoint's page size (`limit=20`, and the planner's `interval`). */
  const PageSize: int := 20

  /** The boundaries `i, i + 20, i + 40, ...` that do not exceed `total`. */
  function Boundaries(i: int, total: int): seq<int>
    decreases total - i
  {
    if i <= total then [i] + Boundaries(i + PageSize, total) else []
  }

  /** What `generateOffsets(startOffset, total)` returns. */
  function Plan(startOffset: int, total: int): seq<int>
  {
    Boundaries(startOffset + PageSize, total)
  }

  /** The number of planned pages: `(total - startOffset) div 20`, or none. */
  function PageCount(startOffset: int, total: int): nat
  {
    if total - startOffset < PageSize then 0 else (total - startOffset) / PageSize
  }

  /** The loop of `generateOffsets`: starts one page past `startOffset`, stops past `total`. */
  method GenerateOffsets(startOffset: int, total: int) returns (offsets: seq<int>)
    ensures offsets == Plan(startOffset, total)
  {
    var start := startOffset + PageSize;
    offsets := [];
    var i := start;
    while i <= total
      invariant offsets + Boundaries(i, total) == Plan(startOffset, total)
      decreases total - i
    {
      assert Boundaries(i, total) == [i] + Boundaries(i + PageSize, total);
      offsets := offsets + [i];
      i := i + PageSize;
    }
  }

  lemma {:induction false} BoundariesShape(i: int, total: int)
    ensures |Boundaries(i, total)| == if total < i then 0 else (total - i) / PageSize + 1
    ensures forall k :: 0 <= k < |Boundaries(i, total)| ==> Boundaries(i, total)[k] == i + PageSize * k
    decreases total - i
  {
    if i <= total {
      BoundariesShape(i + PageSize, total);
      var rest := Boundaries(i + PageSize, total);
      assert Boundaries(i, total) == [i] + rest;
      if total < i + PageSize {
        assert (total - i) / PageSize == 0;
      } else {
        assert (total - i) / PageSize == (total - i - PageSize) / PageSize + 1;
      }
      forall k | 1 <= k < |Boundaries(i, total)|
        ensures Boundaries(i, total)[k] == i + PageSize * k
      {
        assert Boundaries(i, total)[k] == rest[k - 1];
      }
    }
  }

  /**
   * The plan is exactly `[s+20, s+40, ..., s+20k]` with `k = max(0, (t-s) div 20)`:
   * it climbs in steps of 20, never passes `total`, stops at the last boundary that
   * fits, and is empty exactly when `total < startOffset + 20`.
   */
  lemma PlanShape(startOffset: int, total: int)
    ensures |Plan(startOffset, total)| == PageCount(startOffset, total)
    ensures forall k :: 0 <= k < |Plan(startOffset, total)| ==>
              Plan(startOffset, total)[k] == startOffset + PageSize * (k + 1)
    ensures forall k :: 0 <= k < |Plan(startOffset, total)| ==> Plan(startOffset, total)[k] <= total
    ensures startOffset + PageSize * (|Plan(startOffset, total)| + 1) > total
    ensures forall j, k :: 0 <= j < k < |Plan(startOffset, total)| ==>
              Plan(startOffset, total)[j] < Plan(startOffset, total)[k]
    ensures Plan(startOffset, total) == [] <==> total < startOffset + PageSize
  {
    BoundariesShape(startOffset + PageSize, total);
    var n := |Plan(startOffset, total)|;
    if total >= startOffset + PageSize {
      assert (total - startOffset - PageSize) / PageSize + 1 == (total - startOffset) / PageSize;
      assert n > 0 && Plan(startOffset, total)[n - 1] == startOffset + PageSize * n;
    }
  }

  /** The three worked cases: note that a total of exactly one page past the start plans that page. */
  lemma PlanExamples()
    ensures Plan(0, 20) == [20]
    ensures Plan(0, 45) == [20, 40]
    ensures Plan(5, 50) == [25, 45]
    ensures Plan(0, 19) == []
  {
  }
}
