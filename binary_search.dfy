/**
 * Recursive binary search over the first `n` values of a sorted integer
 * array. The recursion has no empty-interval case: it stops only when the
 * middle probe hits the value, so it is defined (terminates and reads inside
 * the array) exactly when the value occurs in the searched interval.
 */
module BinarySearch {

  predicate Sorted(values: seq<int>, n: int)
    requires 0 <= n <= |values|
  {
    forall i, j :: 0 <= i < j < n ==> values[i] <= values[j]
  }

  /** `value` sits at some index of `values[low..high]` (both ends included). */
  predicate OccursIn(value: int, values: seq<int>, low: int, high: int)
    requires 0 <= low && high < |values|
  {
    exists k :: low <= k <= high && values[k] == value
  }

  /** Middle of the interval; C truncation agrees with `/` here because `low + high >= 0`. */
  function Mid(low: int, high: int): (mid: int)
    requires 0 <= low <= high
    ensures low <= mid <= high
  {
    (low + high) / 2
  }

  /**
   * On a sorted array, the half the recursion keeps still holds the value:
   * a middle element above the value puts it left of the middle, any other
   * miss puts it right of the middle.
   */
  lemma NarrowKeepsValue(value: int, values: seq<int>, n: int, low: int, high: int)
    requires 0 <= low <= high < n <= |values| && Sorted(values, n)
    requires OccursIn(value, values, low, high)
    requires values[Mid(low, high)] != value
    ensures values[Mid(low, high)] > value ==> OccursIn(value, values, low, Mid(low, high) - 1)
    ensures values[Mid(low, high)] < value ==> OccursIn(value, values, Mid(low, high) + 1, high)
  {
    var mid := Mid(low, high);
    var k :| low <= k <= high && values[k] == value;
    assert mid < k ==> values[mid] <= values[k];
    assert k < mid ==> values[k] <= values[mid];
    if values[mid] > value {
      assert low <= k <= mid - 1;
    } else {
      assert mid + 1 <= k <= high;
    }
  }

  /**
   * The index at which the recursion stops: it lies in `[low, high]` and
   * holds the value.
   */
  function FoundAt(value: int, values: seq<int>, n: int, low: int, high: int): (mid: int)
    requires 0 <= low <= high < n <= |values| && Sorted(values, n)
    requires OccursIn(value, values, low, high)
    ensures low <= mid <= high && values[mid] == value
    decreases high - low
  {
    var mid := Mid(low, high);
    if values[mid] == value then mid
    else if values[mid] > value then
      NarrowKeepsValue(value, values, n, low, high);
      FoundAt(value, values, n, low, mid - 1)
    else
      NarrowKeepsValue(value, values, n, low, high);
      FoundAt(value, values, n, mid + 1, high)
  }

  /**
   * `binary_search`: probe the middle, then recurse left of it when the
   * middle is too large and right of it otherwise. Under its precondition it
   * answers true, and the probe that answers lies in `[low, high]`.
   */
  function BinarySearch(value: int, values: seq<int>, n: int, low: int, high: int): (r: bool)
    requires 0 <= low <= high < n <= |values| && Sorted(values, n)
    requires OccursIn(value, values, low, high)
    ensures r
    decreases high - low
  {
    var mid := Mid(low, high);
    if values[mid] == value then true
    else if values[mid] > value then
      NarrowKeepsValue(value, values, n, low, high);
      BinarySearch(value, values, n, low, mid - 1)
    else
      NarrowKeepsValue(value, values, n, low, high);
      BinarySearch(value, values, n, mid + 1, high)
  }

  /** `search`: the whole array, `low = 0` and `high = n - 1`. */
  function Search(value: int, values: seq<int>, n: int): (r: bool)
    requires 0 <= n <= |values| && Sorted(values, n)
    requires exists k :: 0 <= k < n && values[k] == value
    ensures r
    ensures r ==> value in values[..n]
  {
    var k :| 0 <= k < n && values[k] == value;
    assert values[..n][k] == value;
    BinarySearch(value, values, n, 0, n - 1)
  }

  // ---------------------------------------------------------------------
  // One call of `binary_search` as written, on any bounds

  /** C's `(low + high) / 2`, which truncates toward zero. */
  function CMid(low: int, high: int): int {
    var s := low + high;
    if s >= 0 then s / 2 else -((-s) / 2)
  }

  /** What one call does: it reads `values[mid]` (outside `[0, n)` the
      read is out of bounds), answers true on a hit, and otherwise calls
      itself on the next bounds. There is no case for `low > high`. */
  datatype Probe = Hit | OutOfBounds | Next(low: int, high: int)

  function ProbeOnce(value: int, values: seq<int>, n: int, low: int, high: int): (p: Probe)
    requires 0 <= n <= |values|
    ensures p.Hit? ==> 0 <= CMid(low, high) < n && values[CMid(low, high)] == value
    ensures p.Next? ==> p.low == low || p.high == high
  {
    var mid := CMid(low, high);
    if !(0 <= mid < n) then OutOfBounds
    else if values[mid] == value then Hit
    else if values[mid] > value then Next(low, mid - 1)
    else Next(mid + 1, high)
  }

  /** Inside a non-empty interval the call is the step `BinarySearch`
      takes: the read is in bounds, C's midpoint is `Mid`, and a miss
      narrows to one side of it. */
  lemma ProbeInInterval(value: int, values: seq<int>, n: int, low: int, high: int)
    requires 0 <= low <= high < n <= |values|
    ensures CMid(low, high) == Mid(low, high)
    ensures var p := ProbeOnce(value, values, n, low, high);
      (p.Hit? <==> values[Mid(low, high)] == value)
      && (p.Next? && values[Mid(low, high)] > value ==> p == Next(low, Mid(low, high) - 1))
      && (p.Next? && values[Mid(low, high)] < value ==> p == Next(Mid(low, high) + 1, high))
      && !p.OutOfBounds?
  {
  }

  /** A value that is not among `values[0..n)` is never hit, so the
      recursion can never answer true for it, let alone false. */
  lemma AbsentNeverHit(value: int, values: seq<int>, n: int, low: int, high: int)
    requires 0 <= n <= |values| && value !in values[..n]
    ensures !ProbeOnce(value, values, n, low, high).Hit?
  {
    var mid := CMid(low, high);
    if 0 <= mid < n {
      assert values[..n][mid] == values[mid];
    }
  }

  /** Once the interval is empty with `low == high + 1` and the value lies
      above `values[high]`, the next call has the very same bounds: the
      recursion never ends. */
  lemma PastTheEndIsFixed(value: int, values: seq<int>, n: int, high: int)
    requires 0 <= high < n <= |values| && values[high] < value
    ensures ProbeOnce(value, values, n, high + 1, high) == Next(high + 1, high)
  {
    assert CMid(high + 1, high) == (2 * high + 1) / 2 == high;
  }

  /** Searching 4 in `{1, 2, 3}`: the bounds go `(0, 2)`, `(2, 2)`,
      `(3, 2)`, and then stay at `(3, 2)`. */
  lemma FourInOneTwoThree()
    ensures var hay := [1, 2, 3];
      ProbeOnce(4, hay, 3, 0, 2) == Next(2, 2)
      && ProbeOnce(4, hay, 3, 2, 2) == Next(3, 2)
      && ProbeOnce(4, hay, 3, 3, 2) == Next(3, 2)
  {
    PastTheEndIsFixed(4, [1, 2, 3], 3, 2);
  }

  /** `search` on an empty array reads `values[0]`: C's midpoint of
      `(0, -1)` is 0, outside the array. */
  lemma EmptyReadsOutside(value: int, values: seq<int>)
    ensures ProbeOnce(value, values, 0, 0, -1) == OutOfBounds
  {
  }

  /** The demonstration: 8 is found among 1..9. */
  lemma DemoFindsEight()
    ensures var haystack := [1, 2, 3, 4, 5, 6, 7, 8, 9];
      haystack[7] == 8 && Search(8, haystack, 9)
  {
  }
}
