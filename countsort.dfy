/**
 * Counting sort of the first `n` cells of an integer array whose values lie
 * in [0, MAX): a histogram, its running sum, a shift by one place that turns
 * it into bucket start positions, a stable placement pass into a fresh array
 * and a copy back.
 */
module CountSort {

  /** Size of the count array, and the exclusive upper bound on values. */
  const MAX: int := 65536

  predicate InRange(s: seq<int>) {
    forall k :: 0 <= k < |s| ==> 0 <= s[k] < MAX
  }

  predicate Sorted(s: seq<int>) {
    forall i, j :: 0 <= i < j < |s| ==> s[i] <= s[j]
  }

  /** Number of occurrences of `v` in `s`. */
  function Occ(s: seq<int>, v: int): nat {
    multiset(s)[v]
  }

  /** Number of elements of `s` strictly below `v`: where bucket `v` starts. */
  function Below(s: seq<int>, v: int): (r: nat)
    ensures r <= |s|
  {
    if s == [] then 0
    else Below(s[..|s| - 1], v) + (if s[|s| - 1] < v then 1 else 0)
  }

  /** `i` is a position of the sorted output that holds the value `v`. */
  predicate InBucket(s: seq<int>, v: int, i: int) {
    Below(s, v) <= i < Below(s, v + 1)
  }

  // ---------------------------------------------------------------------
  // Facts about bucket boundaries
  // ---------------------------------------------------------------------

  /** Bucket `v` is exactly as wide as the number of occurrences of `v`. */
  lemma {:induction false} BelowNext(s: seq<int>, v: int)
    ensures Below(s, v + 1) == Below(s, v) + Occ(s, v)
  {
    if s != [] {
      var init := s[..|s| - 1];
      BelowNext(init, v);
      assert s == init + [s[|s| - 1]];
      assert multiset(s) == multiset(init) + multiset{s[|s| - 1]};
    }
  }

  /** Bucket starts never decrease. */
  lemma {:induction false} BelowMono(s: seq<int>, v: int, w: int)
    requires v <= w
    ensures Below(s, v) <= Below(s, w)
  {
    if s != [] {
      BelowMono(s[..|s| - 1], v, w);
    }
  }

  /** With every value in range, the first bucket starts at 0 and the last ends at |s|. */
  lemma {:induction false} BelowEnds(s: seq<int>)
    requires InRange(s)
    ensures Below(s, 0) == 0 && Below(s, MAX) == |s|
  {
    if s != [] {
      BelowEnds(s[..|s| - 1]);
    }
  }

  /** Every output position lies in the bucket of some value below `hi`. */
  lemma {:induction false} BucketBelow(s: seq<int>, i: int, hi: int) returns (v: int)
    requires 0 <= hi && Below(s, 0) <= i < Below(s, hi)
    ensures 0 <= v < hi && InBucket(s, v, i)
    decreases hi
  {
    if Below(s, hi - 1) <= i {
      v := hi - 1;
    } else {
      v := BucketBelow(s, i, hi - 1);
    }
  }

  lemma BucketOf(s: seq<int>, i: int) returns (v: int)
    requires InRange(s) && 0 <= i < |s|
    ensures 0 <= v < MAX && InBucket(s, v, i)
  {
    BelowEnds(s);
    v := BucketBelow(s, i, MAX);
  }

  /** Distinct values have disjoint buckets, in value order. */
  lemma BucketsOrdered(s: seq<int>, v: int, w: int, i: int, j: int)
    requires InBucket(s, v, i) && InBucket(s, w, j) && i <= j
    ensures v <= w
  {
    if w < v {
      BelowMono(s, w + 1, v);
    }
  }

  /** A sequence all of whose elements are `x` holds `x` exactly |u| times. */
  lemma {:induction false} AllSameCount(u: seq<int>, x: int)
    requires forall k :: 0 <= k < |u| ==> u[k] == x
    ensures multiset(u)[x] == |u|
  {
    if u != [] {
      AllSameCount(u[1..], x);
      assert u == [u[0]] + u[1..];
    }
  }

  /** Positions filled bucket by bucket: each holds the value whose bucket it lies in. */
  predicate FilledByBuckets(s: seq<int>, t: seq<int>) {
    |t| == |s| &&
    forall v, i :: 0 <= v < MAX && 0 <= i < |t| && InBucket(s, v, i) ==> t[i] == v
  }

  /** An array filled bucket by bucket is ascending. */
  lemma BucketsSorted(s: seq<int>, t: seq<int>)
    requires InRange(s) && FilledByBuckets(s, t)
    ensures Sorted(t)
  {
    forall i, j | 0 <= i < j < |t|
      ensures t[i] <= t[j]
    {
      var v := BucketOf(s, i);
      var w := BucketOf(s, j);
      BucketsOrdered(s, v, w, i, j);
    }
  }

  /** Bucket `x` of a filled array holds every occurrence of `x`, and nothing else does. */
  lemma BucketCount(s: seq<int>, t: seq<int>, x: int)
    requires InRange(s) && FilledByBuckets(s, t) && 0 <= x < MAX
    ensures multiset(t)[x] == Occ(s, x)
  {
    var a, b := Below(s, x), Below(s, x + 1);
    BelowMono(s, x, x + 1);
    BelowNext(s, x);
    var lo, mid, hi := t[..a], t[a..b], t[b..];
    assert t == lo + mid + hi;
    forall k | 0 <= k < |mid|
      ensures mid[k] == x
    {
      assert InBucket(s, x, a + k);
    }
    AllSameCount(mid, x);
    forall k | 0 <= k < |lo|
      ensures lo[k] != x
    {
      var v := BucketOf(s, k);
      if v >= x {
        BelowMono(s, x, v);
      }
    }
    forall k | 0 <= k < |hi|
      ensures hi[k] != x
    {
      var v := BucketOf(s, b + k);
      if v <= x {
        BelowMono(s, v + 1, x + 1);
      }
    }
    assert x !in lo && x !in hi;
  }

  /** An array filled bucket by bucket is a permutation of `s`. */
  lemma BucketsPerm(s: seq<int>, t: seq<int>)
    requires InRange(s) && FilledByBuckets(s, t)
    ensures multiset(t) == multiset(s)
  {
    forall x
      ensures multiset(t)[x] == multiset(s)[x]
    {
      if 0 <= x < MAX {
        BucketCount(s, t, x);
      } else {
        forall k | 0 <= k < |t|
          ensures t[k] != x
        {
          var v := BucketOf(s, k);
        }
        assert x !in t;
        assert x !in s;
      }
    }
  }

  /** Appending one element adds one occurrence of it. */
  lemma OccStep(s: seq<int>, k: int, v: int)
    requires 0 <= k < |s|
    ensures Occ(s[..k + 1], v) == Occ(s[..k], v) + (if s[k] == v then 1 else 0)
  {
    assert s[..k + 1] == s[..k] + [s[k]];
  }

  /** An element still to be placed has an occurrence not yet counted. */
  lemma OccPending(s: seq<int>, k: int)
    requires 0 <= k < |s|
    ensures Occ(s[..k], s[k]) < Occ(s, s[k])
  {
    OccStep(s, k, s[k]);
    assert s == s[..k + 1] + s[k + 1..];
  }

  // ---------------------------------------------------------------------
  // The passes of the sort
  // ---------------------------------------------------------------------

  /** Histogram: a zeroed count array, then one increment per element. */
  method Histogram(values: array<int>, n: int) returns (countArr: array<int>)
    requires 0 <= n <= values.Length && InRange(values[..n])
    ensures fresh(countArr) && countArr.Length == MAX
    ensures forall v :: 0 <= v < MAX ==> countArr[v] == Occ(values[..n], v)
  {
    countArr := new int[MAX];
    var i := 0;
    while i < MAX
      invariant 0 <= i <= MAX
      invariant forall v :: 0 <= v < i ==> countArr[v] == 0
    {
      countArr[i] := 0;
      i := i + 1;
    }
    var k := 0;
    while k < n
      invariant 0 <= k <= n
      invariant forall v :: 0 <= v < MAX ==> countArr[v] == Occ(values[..n][..k], v)
    {
      assert values[..n][k] == values[k];
      forall v | 0 <= v < MAX {
        OccStep(values[..n], k, v);
      }
      countArr[values[k]] := countArr[values[k]] + 1;
      k := k + 1;
    }
    assert values[..n][..n] == values[..n];
  }

  /** Running sum: afterwards `countArr[m]` counts the elements `<= m`. */
  method PrefixSums(countArr: array<int>, ghost s: seq<int>)
    requires countArr.Length == MAX && InRange(s)
    requires forall v :: 0 <= v < MAX ==> countArr[v] == Occ(s, v)
    modifies countArr
    ensures forall v :: 0 <= v < MAX ==> countArr[v] == Below(s, v + 1)
  {
    BelowEnds(s);
    BelowNext(s, 0);
    var m := 1;
    while m < MAX
      invariant 1 <= m <= MAX
      invariant forall v :: 0 <= v < m ==> countArr[v] == Below(s, v + 1)
      invariant forall v :: m <= v < MAX ==> countArr[v] == Occ(s, v)
    {
      BelowNext(s, m);
      countArr[m] := countArr[m] + countArr[m - 1];
      m := m + 1;
    }
  }

  /** Shift right by one with a zero in front: `countArr[v]` becomes the start of bucket `v`. */
  method ShiftRight(countArr: array<int>, ghost s: seq<int>)
    requires countArr.Length == MAX && InRange(s)
    requires forall v :: 0 <= v < MAX ==> countArr[v] == Below(s, v + 1)
    modifies countArr
    ensures forall v :: 0 <= v < MAX ==> countArr[v] == Below(s, v)
  {
    var p := MAX - 1;
    while p > 0
      invariant 0 <= p <= MAX - 1
      invariant forall v :: 0 <= v <= p ==> countArr[v] == Below(s, v + 1)
      invariant forall v :: p < v < MAX ==> countArr[v] == Below(s, v)
    {
      ghost var before := countArr[..];
      countArr[p] := countArr[p - 1];
      assert countArr[..] == before[p := before[p - 1]];
      p := p - 1;
    }
    BelowEnds(s);
    countArr[0] := 0;
  }

  /**
   * Placement: each element goes to the next free slot of its bucket, which
   * is then advanced. Every element lands on a distinct position of [0, n),
   * and afterwards each bucket is full.
   */
  method Place(values: array<int>, n: int, countArr: array<int>) returns (newArr: array<int>)
    requires 0 <= n <= values.Length && InRange(values[..n])
    requires countArr.Length == MAX && countArr != values
    requires forall v :: 0 <= v < MAX ==> countArr[v] == Below(values[..n], v)
    modifies countArr
    ensures fresh(newArr) && newArr.Length == n
    ensures FilledByBuckets(values[..n], newArr[..])
  {
    ghost var s := values[..n];
    newArr := new int[n];
    assert s[..0] == [];
    var r := 0;
    while r < n
      invariant 0 <= r <= n
      invariant NextSlots(s, r, countArr[..])
      invariant Written(s, countArr[..], newArr[..])
    {
      var x := values[r];
      assert x == s[r];
      ghost var cnt, out := countArr[..], newArr[..];
      PlaceStep(s, r, cnt, out);
      var c := countArr[x];
      newArr[c] := x;
      countArr[x] := c + 1;
      assert countArr[..] == cnt[x := c + 1];
      assert newArr[..] == out[c := x];
      r := r + 1;
    }
    PlaceDone(s, countArr[..], newArr[..]);
  }

  /** Before element `r` is placed, `cnt[v]` is the next free slot of bucket `v`. */
  predicate NextSlots(s: seq<int>, r: int, cnt: seq<int>)
    requires 0 <= r <= |s|
  {
    |cnt| == MAX && forall v :: 0 <= v < MAX ==> cnt[v] == Below(s, v) + Occ(s[..r], v)
  }

  /** Every slot of a bucket before its next free slot holds the bucket's value. */
  predicate Written(s: seq<int>, cnt: seq<int>, out: seq<int>)
    requires |cnt| == MAX
  {
    |out| == |s| &&
    forall v, i :: 0 <= v < MAX && 0 <= i < |out| && Below(s, v) <= i < cnt[v] ==> out[i] == v
  }

  /**
   * Placing element `r` at its bucket's next free slot writes inside [0, |s|)
   * and into no other bucket's filled part, so both invariants carry over.
   */
  lemma PlaceStep(s: seq<int>, r: int, cnt: seq<int>, out: seq<int>)
    requires InRange(s) && 0 <= r < |s|
    requires NextSlots(s, r, cnt) && Written(s, cnt, out)
    ensures 0 <= cnt[s[r]] < |s|
    ensures NextSlots(s, r + 1, cnt[s[r] := cnt[s[r]] + 1])
    ensures Written(s, cnt[s[r] := cnt[s[r]] + 1], out[cnt[s[r]] := s[r]])
  {
    var x := s[r];
    var c := cnt[x];
    OccPending(s, r);
    BelowNext(s, x);
    forall w | 0 <= w < MAX && w != x
      ensures c < Below(s, w) || cnt[w] <= c
    {
      if w < x {
        BelowNext(s, w);
        BelowMono(s, w + 1, x);
        OccLe(s, r, w);
      } else {
        BelowMono(s, x + 1, w);
      }
    }
    forall v | 0 <= v < MAX
      ensures Occ(s[..r + 1], v) == Occ(s[..r], v) + (if x == v then 1 else 0)
    {
      OccStep(s, r, v);
    }
  }

  /** Once every element is placed, every bucket is full. */
  lemma PlaceDone(s: seq<int>, cnt: seq<int>, out: seq<int>)
    requires NextSlots(s, |s|, cnt) && Written(s, cnt, out)
    ensures FilledByBuckets(s, out)
  {
    assert s[..|s|] == s;
    forall v | 0 <= v < MAX
      ensures cnt[v] == Below(s, v + 1)
    {
      BelowNext(s, v);
    }
  }

  /** A prefix holds no more occurrences than the whole sequence. */
  lemma OccLe(s: seq<int>, k: int, v: int)
    requires 0 <= k <= |s|
    ensures Occ(s[..k], v) <= Occ(s, v)
  {
    assert s == s[..k] + s[k..];
  }

  /** Copy back: the first `n` cells of `values` become `newArr`. */
  method CopyBack(values: array<int>, newArr: array<int>, n: int)
    requires 0 <= n <= values.Length && newArr.Length == n && newArr != values
    modifies values
    ensures values[..n] == newArr[..] && values[n..] == old(values[n..])
  {
    var t := 0;
    while t < n
      invariant 0 <= t <= n
      invariant values[..t] == newArr[..t]
      invariant values[t..] == old(values[t..])
    {
      values[t] := newArr[t];
      t := t + 1;
    }
  }

  /**
   * Sorts `values[0..n)` ascending in place; the contents are permuted and
   * the cells from `n` on are untouched.
   */
  method Sort(values: array<int>, n: int)
    requires 0 <= n <= values.Length
    requires InRange(values[..n])
    modifies values
    ensures Sorted(values[..n])
    ensures multiset(values[..n]) == multiset(old(values[..n]))
    ensures values[n..] == old(values[n..])
  {
    ghost var s := values[..n];
    var countArr := Histogram(values, n);
    PrefixSums(countArr, s);
    ShiftRight(countArr, s);
    var newArr := Place(values, n, countArr);
    BucketsSorted(s, newArr[..]);
    BucketsPerm(s, newArr[..]);
    CopyBack(values, newArr, n);
  }
}
