/** Latency statistics, experiment/details/latency.cpp:36-138: moments in 64 bit arithmetic, ranks in
    the whole array and chunk by chunk. */
module Latency {
  import opened Counting
  import opened Numbers


  /** Unsigned 64 bit arithmetic. */
  function Wrap(x: int): (r: nat)
    ensures 0 <= x < U64 ==> r == x
  {
    x % U64
  }

  lemma WrapAdd(a: int, b: int)
    ensures Wrap(Wrap(a) + b) == Wrap(a + b)
  {}

  // ---- Moments ----

  ghost function Sum(s: seq<nat>): nat {
    if s == [] then 0 else Sum(s[..|s| - 1]) + s[|s| - 1]
  }

  function Square(x: int): (r: nat) {
    assert x * x >= 0;
    x * x
  }

  ghost function SumSquares(s: seq<nat>): nat {
    if s == [] then 0 else SumSquares(s[..|s| - 1]) + Square(s[|s| - 1])
  }

  /** The second moment about x. */
  ghost function Spread(s: seq<nat>, x: int): nat {
    if s == [] then 0 else Spread(s[..|s| - 1], x) + Square(s[|s| - 1] - x)
  }

  lemma SquareOfDifference(a: int, x: int)
    ensures Square(a - x) == Square(a) - 2 * (x * a) + Square(x)
  {}

  lemma {:induction false} SpreadExpands(s: seq<nat>, x: int)
    ensures Spread(s, x) == SumSquares(s) - 2 * (x * Sum(s)) + |s| * Square(x)
  {
    if s != [] {
      var front, a := s[..|s| - 1], s[|s| - 1];
      SpreadExpands(front, x);
      SquareOfDifference(a, x);
      Distribute(x, Sum(front), a, |front|, Square(x));
    }
  }

  lemma Distribute(x: int, p: int, q: int, n: int, y: int)
    ensures x * (p + q) == x * p + x * q
    ensures (n + 1) * y == n * y + y
  {}

  /** Cauchy-Schwarz: the square of the sum is at most n times the sum of the squares. */
  lemma {:induction false} SquareOfSum(s: seq<nat>)
    ensures Square(Sum(s)) <= |s| * SumSquares(s)
  {
    if s != [] {
      var front, a := s[..|s| - 1], s[|s| - 1];
      SquareOfSum(front);
      SpreadExpands(front, a);
      SquareStep(|front|, SumSquares(front), Sum(front), a, Spread(front, a));
    }
  }

  lemma SquareOfSumOfTwo(a: int, x: int)
    ensures Square(a + x) == Square(a) + 2 * (x * a) + Square(x)
  {}

  lemma SquareOfProduct(n: int, x: int)
    ensures Square(n * x) == n * (n * Square(x))
  {}

  lemma OneMore(n: int, q: int)
    ensures n * (q + 1) == n * q + n
  {}

  lemma SquareStep(n: nat, s2: nat, s: nat, a: nat, spread: nat)
    requires Square(s) <= n * s2 && spread == s2 - 2 * (a * s) + n * Square(a)
    ensures Square(s + a) <= (n + 1) * (s2 + Square(a))
  {
    SquareOfSumOfTwo(s, a);
    Distribute(n + 1, s2, Square(a), n, s2);
    Distribute(0, 0, 0, n, Square(a));
  }

  lemma FloorOfProduct(n: nat, a: nat, b: nat)
    requires n > 0 && n * a <= b
    ensures a <= b / n
  {
    OneMore(n, b / n);
    if a > b / n {
      MulMonotone(n, b / n + 1, a);
    }
  }

  lemma SquareMonotone(x: nat, y: nat)
    requires x <= y
    ensures Square(x) <= Square(y)
  {
    MulMonotone(x, x, y);
    MulMonotone(y, x, y);
  }

  lemma CancelFactor(n: nat, a: nat, b: nat)
    requires n > 0 && n * a <= n * b
    ensures a <= b
  {
    OneMore(n, b);
    if a > b {
      MulMonotone(n, b + 1, a);
    }
  }

  /** The mean of the squares, rounded down, is no less than the square of the mean, rounded down: the
      subtraction at line 66 does not underflow. */
  lemma VarianceNotNegative(s: seq<nat>)
    requires s != []
    ensures Square(Sum(s) / |s|) <= SumSquares(s) / |s|
  {
    SquareOfSum(s);
    FloorSquares(|s|, Sum(s), SumSquares(s));
  }

  lemma FloorTimes(n: nat, x: nat)
    requires n > 0
    ensures n * (x / n) <= x
  {}

  lemma FloorSquares(n: nat, sum: nat, sum2: nat)
    requires n > 0 && Square(sum) <= n * sum2
    ensures Square(sum / n) <= sum2 / n
  {
    var mean := sum / n;
    FloorTimes(n, sum);
    SquareMonotone(n * mean, sum);
    SquareOfProduct(n, mean);
    CancelFactor(n, n * Square(mean), sum2);
    FloorOfProduct(n, Square(mean), sum2);
  }

  /** The sums stay within 64 bits. */
  ghost predicate Fits(s: seq<nat>) {
    SumSquares(s) < U64
  }

  lemma {:induction false} SumFits(s: seq<nat>)
    ensures Sum(s) <= SumSquares(s)
  {
    if s != [] {
      SumFits(s[..|s| - 1]);
      assert s[|s| - 1] <= Square(s[|s| - 1]);
    }
  }

  lemma MomentsSnoc(s: seq<nat>, i: nat)
    requires i < |s|
    ensures Sum(s[..i + 1]) == Sum(s[..i]) + s[i]
    ensures SumSquares(s[..i + 1]) == SumSquares(s[..i]) + Square(s[i])
  {
    assert s[..i + 1][..i] == s[..i];
  }

  // ---- Ranks ----

  /** p is the value at position k of the sorted data: at most k entries are smaller, more than k are not larger. */
  ghost predicate IsRank(s: seq<nat>, k: int, p: nat) {
    CountLe(s, p - 1) <= k < CountLe(s, p)
  }

  lemma RankAt(t: seq<nat>, k: nat)
    requires NonDecreasing(t) && k < |t|
    ensures IsRank(t, k, t[k])
  {
    SortedPrefix(t, t[k], k);
    SortedPrefix(t, t[k] as int - 1, k);
  }

  lemma {:induction false} CountLeConcat(a: seq<nat>, b: seq<nat>, x: int)
    ensures CountLe(a + b, x) == CountLe(a, x) + CountLe(b, x)
  {
    if b == [] {
      assert a + b == a;
    } else {
      var last := |b| - 1;
      CountLeConcat(a, b[..last], x);
      assert (a + b)[..|a + b| - 1] == a + b[..last];
    }
  }

  function Without(t: seq<nat>, k: nat): (r: seq<nat>)
    requires k < |t|
    ensures |r| == |t| - 1
  {
    t[..k] + t[k + 1..]
  }

  lemma CountLeRemoved(t: seq<nat>, k: nat, x: int)
    requires k < |t|
    ensures CountLe(t, x) == CountLe(Without(t, k), x) + if t[k] <= x then 1 else 0
  {
    CountLeConcat(t[..k], t[k + 1..], x);
    assert t[..k + 1][..k] == t[..k];
    CountLeConcat(t[..k + 1], t[k + 1..], x);
    assert t == t[..k + 1] + t[k + 1..];
  }

  lemma MultisetRemoved(t: seq<nat>, k: nat)
    requires k < |t|
    ensures multiset(t) == multiset(Without(t, k)) + multiset{t[k]}
  {
    assert t == t[..k] + [t[k]] + t[k + 1..];
  }

  /** Sorting does not change the counts. */
  lemma {:induction false} CountLePermuted(s: seq<nat>, t: seq<nat>, x: int)
    requires multiset(s) == multiset(t)
    ensures CountLe(s, x) == CountLe(t, x)
    decreases |s|
  {
    assert |multiset(s)| == |multiset(t)|;
    if s != [] {
      var last := |s| - 1;
      MultisetRemoved(s, last);
      assert Without(s, last) == s[..last];
      assert s[last] in multiset(t);
      var k: nat :| k < |t| && t[k] == s[last];
      MultisetRemoved(t, k);
      SameRest(multiset(s[..last]), multiset(Without(t, k)), s[last]);
      CountLePermuted(s[..last], Without(t, k), x);
      CountLeRemoved(t, k, x);
    }
  }

  lemma SameRest(a: multiset<nat>, b: multiset<nat>, x: nat)
    requires a + multiset{x} == b + multiset{x}
    ensures a == b
  {
    forall y
      ensures a[y] == b[y]
    {
      assert (a + multiset{x})[y] == (b + multiset{x})[y];
    }
  }

  lemma RankPermuted(s: seq<nat>, t: seq<nat>, k: int, p: nat)
    requires multiset(s) == multiset(t) && IsRank(t, k, p)
    ensures IsRank(s, k, p)
  {
    CountLePermuted(s, t, p);
    CountLePermuted(s, t, p - 1);
  }

  lemma RanksAscend(s: seq<nat>, j: int, p: nat, k: int, q: nat)
    requires IsRank(s, j, p) && IsRank(s, k, q) && j <= k
    ensures p <= q
  {
    if q < p {
      CountLeMonotone(s, q, p - 1);
    }
  }

  ghost predicate IsMin(s: seq<nat>, m: nat) {
    m in s && forall i | 0 <= i < |s| :: m <= s[i]
  }

  ghost predicate IsMax(s: seq<nat>, m: nat) {
    m in s && forall i | 0 <= i < |s| :: s[i] <= m
  }

  lemma {:induction false} NothingBelow(s: seq<nat>, x: int)
    requires forall i | 0 <= i < |s| :: x < s[i]
    ensures CountLe(s, x) == 0
  {
    if s != [] {
      NothingBelow(s[..|s| - 1], x);
    }
  }

  /** The extremes are the first and the last rank. */
  lemma ExtremesAreRanks(s: seq<nat>, lo: nat, hi: nat)
    requires IsMin(s, lo) && IsMax(s, hi)
    ensures IsRank(s, 0, lo) && IsRank(s, |s| - 1, hi)
  {
    NothingBelow(s, lo - 1);
    var i :| 0 <= i < |s| && s[i] == lo;
    CountLeRemoved(s, i, lo);
    AllCounted(s, hi);
    var j :| 0 <= j < |s| && s[j] == hi;
    CountLeRemoved(s, j, hi - 1);
    CountLeBounds(Without(s, j), 0);
  }

  /** Position get_percentile reads. */
  function PercentilePosition(n: nat, index: nat): (k: nat)
    requires n > 0 && index <= 100
    ensures k < n
  {
    PercentileBound(n, index);
    var pos := (index * n) / 100;
    if pos > 0 then pos - 1 else 0
  }

  lemma PercentileBound(n: nat, index: nat)
    requires index <= 100
    ensures (index * n) / 100 <= n
  {
    MulMonotone(n, index, 100);
  }

  lemma PositionsAscend(n: nat, i: nat, j: nat)
    requires n > 0 && i <= j <= 100
    ensures PercentilePosition(n, i) <= PercentilePosition(n, j)
  {
    MulMonotone(n, i, j);
  }

  ghost predicate IsPercentile(s: seq<nat>, index: nat, p: nat)
    requires s != [] && index <= 100
  {
    IsRank(s, PercentilePosition(|s|, index), p)
  }

  /** The mean, rounded down. */
  ghost predicate IsMean(s: seq<nat>, mean: nat)
    requires s != []
  {
    mean == Wrap(Sum(s)) / |s|
  }

  /** The middle entry, or the mean of the two in the middle. */
  ghost predicate IsMedian(s: seq<nat>, m: nat) {
    if |s| % 2 == 1 then IsRank(s, |s| / 2, m)
    else exists a: nat, b: nat :: MiddlePair(s, a, b) && m == Wrap(b + a) / 2
  }

  ghost predicate MiddlePair(s: seq<nat>, a: nat, b: nat) {
    IsRank(s, |s| / 2 - 1, a) && IsRank(s, |s| / 2, b)
  }

  // ---- One chunk ----

  datatype Chunk = Chunk(mean: nat, median: nat, min: nat, max: nat, p90: nat, p95: nat, p99: nat)

  ghost predicate Describes(c: Chunk, s: seq<nat>) {
    && s != []
    && IsMean(s, c.mean)
    && IsMedian(s, c.median)
    && IsMin(s, c.min) && IsMax(s, c.max)
    && IsPercentile(s, 90, c.p90)
    && IsPercentile(s, 95, c.p95)
    && IsPercentile(s, 99, c.p99)
  }

  lemma InsertSorted(t: seq<nat>, k: nat, x: nat)
    requires NonDecreasing(t) && k <= |t|
    requires (forall j | 0 <= j < k :: t[j] <= x) && (k < |t| ==> x < t[k])
    ensures NonDecreasing(t[..k] + [x] + t[k..])
  {
    var r := t[..k] + [x] + t[k..];
    forall i, j | 0 <= i <= j < |r|
      ensures r[i] <= r[j]
    {
      if j > k {
        assert t[k] <= t[j - 1];
      }
    }
  }

  lemma InsertMultiset(t: seq<nat>, k: nat, x: nat)
    requires k <= |t|
    ensures multiset(t[..k] + [x] + t[k..]) == multiset(t) + multiset{x}
  {
    assert t == t[..k] + t[k..];
  }

  method InsertValue(t: seq<nat>, x: nat) returns (r: seq<nat>)
    requires NonDecreasing(t)
    ensures NonDecreasing(r) && multiset(r) == multiset(t) + multiset{x} && |r| == |t| + 1
  {
    var k := 0;
    while k < |t| && t[k] <= x
      invariant k <= |t| && forall j | 0 <= j < k :: t[j] <= x
    {
      k := k + 1;
    }
    InsertSorted(t, k, x);
    InsertMultiset(t, k, x);
    r := t[..k] + [x] + t[k..];
  }

  /** std::sort. */
  method Sort(s: seq<nat>) returns (t: seq<nat>)
    ensures NonDecreasing(t) && multiset(t) == multiset(s) && |t| == |s|
  {
    t := [];
    for i := 0 to |s|
      invariant NonDecreasing(t) && multiset(t) == multiset(s[..i]) && |t| == i
    {
      TakeSnoc(s, i);
      t := InsertValue(t, s[i]);
    }
    assert s[..|s|] == s;
  }

  /** get_percentile on sorted data. */
  method Percentile(sorted: seq<nat>, index: nat, ghost s: seq<nat>) returns (p: nat)
    requires sorted != [] && index <= 100 && NonDecreasing(sorted) && multiset(s) == multiset(sorted)
    ensures s != [] && IsPercentile(s, index, p)
  {
    assert |multiset(s)| == |multiset(sorted)|;
    PercentileBound(|sorted|, index);
    var pos := (index * |sorted|) / 100;
    var k := if pos > 0 then pos - 1 else 0;
    p := sorted[k];
    RankAt(sorted, k);
    RankPermuted(s, sorted, k, p);
  }

  method Median(sorted: seq<nat>, ghost s: seq<nat>) returns (m: nat)
    requires sorted != [] && NonDecreasing(sorted) && multiset(s) == multiset(sorted)
    ensures IsMedian(s, m)
  {
    assert |multiset(s)| == |multiset(sorted)|;
    var half := |sorted| / 2;
    RankAt(sorted, half);
    RankPermuted(s, sorted, half, sorted[half]);
    if |sorted| % 2 == 0 {
      RankAt(sorted, half - 1);
      RankPermuted(s, sorted, half - 1, sorted[half - 1]);
      assert MiddlePair(s, sorted[half - 1], sorted[half]);
      m := Wrap(sorted[half] + sorted[half - 1]) / 2;
    } else {
      m := sorted[half];
    }
  }

  lemma MinSnoc(s: seq<nat>, i: nat, lo: nat, hi: nat)
    requires i < |s| && (i > 0 ==> IsMin(s[..i], lo) && IsMax(s[..i], hi))
    ensures IsMin(s[..i + 1], if i > 0 && lo < s[i] then lo else s[i])
    ensures IsMax(s[..i + 1], if i > 0 && s[i] < hi then hi else s[i])
  {
    TakeSnoc(s, i);
    assert s[..i + 1][i] == s[i];
    assert i > 0 ==> lo in s[..i] && hi in s[..i];
  }

  ghost predicate Values64(s: seq<nat>) {
    forall i | 0 <= i < |s| :: s[i] < U64
  }

  /** The extremes after i values, starting from the limits of the type. */
  ghost predicate Extremes(s: seq<nat>, i: nat, lo: nat, hi: nat)
    requires i <= |s|
  {
    if i == 0 then lo == U64 - 1 && hi == 0 else IsMin(s[..i], lo) && IsMax(s[..i], hi)
  }

  lemma ExtremesStep(s: seq<nat>, i: nat, lo: nat, hi: nat)
    requires i < |s| && Values64(s) && Extremes(s, i, lo, hi)
    ensures Extremes(s, i + 1, Min(s[i], lo), Max(s[i], hi))
  {
    MinSnoc(s, i, lo, hi);
  }

  /** The inner loop over a chunk, lines 94-100. */
  method ChunkMoments(s: seq<nat>) returns (sum: nat, lo: nat, hi: nat)
    requires Values64(s)
    ensures sum == Wrap(Sum(s)) && Extremes(s, |s|, lo, hi)
  {
    sum, lo, hi := 0, U64 - 1, 0;
    for j := 0 to |s|
      invariant sum == Wrap(Sum(s[..j])) && Extremes(s, j, lo, hi)
    {
      MomentsSnoc(s, j);
      WrapAdd(Sum(s[..j]), s[j]);
      ExtremesStep(s, j, lo, hi);
      sum := Wrap(sum + s[j]);
      lo, hi := Min(s[j], lo), Max(s[j], hi);
    }
    assert s[..|s|] == s;
  }

  method Mean(sum: nat, n: nat, ghost s: seq<nat>) returns (mean: nat)
    requires n == |s| > 0 && sum == Wrap(Sum(s))
    ensures IsMean(s, mean)
  {
    mean := sum / n;
  }

  lemma ExtremesOfAll(s: seq<nat>, lo: nat, hi: nat)
    requires s != [] && Extremes(s, |s|, lo, hi)
    ensures IsMin(s, lo) && IsMax(s, hi)
  {
    assert s[..|s|] == s;
  }

  method ChunkRanks(sorted: seq<nat>, ghost s: seq<nat>) returns (p90: nat, p95: nat, p99: nat)
    requires sorted != [] && NonDecreasing(sorted) && multiset(s) == multiset(sorted) && |s| == |sorted|
    ensures IsPercentile(s, 90, p90)
    ensures IsPercentile(s, 95, p95)
    ensures IsPercentile(s, 99, p99)
  {
    p90 := Percentile(sorted, 90, s);
    p95 := Percentile(sorted, 95, s);
    p99 := Percentile(sorted, 99, s);
  }

  method DescribeChunk(s: seq<nat>) returns (c: Chunk)
    requires s != [] && Values64(s)
    ensures Describes(c, s)
  {
    var sum, lo, hi := ChunkMoments(s);
    ExtremesOfAll(s, lo, hi);
    var mean := Mean(sum, |s|, s);
    var sorted := Sort(s);
    var median := Median(sorted, s);
    var p90, p95, p99 := ChunkRanks(sorted, s);
    c := Chunk(mean, median, lo, hi, p90, p95, p99);
  }

  // ---- All chunks ----

  /** The array cut every size elements. */
  ghost function ChunksOf(s: seq<nat>, size: nat): seq<seq<nat>>
    requires size > 0
    decreases |s|
  {
    if s == [] then [] else if |s| <= size then [s] else [s[..size]] + ChunksOf(s[size..], size)
  }

  ghost function Flatten(parts: seq<seq<nat>>): seq<nat> {
    if parts == [] then [] else parts[0] + Flatten(parts[1..])
  }

  /** The chunks partition the array, and only the last one may be shorter. */
  lemma {:induction false} ChunksPartition(s: seq<nat>, size: nat)
    requires size > 0
    ensures Flatten(ChunksOf(s, size)) == s
    ensures forall k | 0 <= k < |ChunksOf(s, size)| ::
      if k < |ChunksOf(s, size)| - 1 then |ChunksOf(s, size)[k]| == size else 0 < |ChunksOf(s, size)[k]| <= size
    decreases |s|
  {
    if |s| > size {
      ChunksPartition(s[size..], size);
      assert s == s[..size] + s[size..];
      assert ChunksOf(s, size)[1..] == ChunksOf(s[size..], size);
      assert ChunksOf(s[size..], size) != [];
    } else if s != [] {
      assert ChunksOf(s, size)[1..] == [];
    }
  }

  ghost predicate DescribeAll(chunks: seq<Chunk>, parts: seq<seq<nat>>) {
    |chunks| == |parts| && forall k | 0 <= k < |parts| :: Describes(chunks[k], parts[k])
  }

  /** The parts cut off before position i, when the loop stands there (possibly past the end). */
  ghost predicate CutUpTo(s: seq<nat>, size: nat, i: nat, done: seq<seq<nat>>)
    requires size > 0
  {
    done + ChunksOf(if i < |s| then s[i..] else [], size) == ChunksOf(s, size)
  }

  lemma NextChunk(s: seq<nat>, size: nat, i: nat, done: seq<seq<nat>>, end: nat)
    requires size > 0 && i < |s| && CutUpTo(s, size, i, done) && end == if i + size < |s| then i + size else |s|
    ensures CutUpTo(s, size, i + size, done + [s[i..end]])
  {
    var rest := s[i..];
    if i + size < |s| {
      assert rest[..size] == s[i..i + size] && rest[size..] == s[i + size..];
    } else {
      assert rest == s[i..|s|];
    }
  }

  lemma DescribeSnoc(chunks: seq<Chunk>, parts: seq<seq<nat>>, c: Chunk, s: seq<nat>)
    requires DescribeAll(chunks, parts) && Describes(c, s)
    ensures DescribeAll(chunks + [c], parts + [s])
  {}

  lemma CutEverything(s: seq<nat>, size: nat, i: nat, done: seq<seq<nat>>)
    requires size > 0 && i >= |s| && CutUpTo(s, size, i, done)
    ensures done == ChunksOf(s, size)
  {}

  method DescribeChunks(a: array<nat>, chunkSize: nat) returns (chunks: seq<Chunk>)
    requires Values64(a[..])
    ensures if chunkSize > 0 then DescribeAll(chunks, ChunksOf(a[..], chunkSize)) else chunks == []
  {
    chunks := [];
    if chunkSize == 0 {
      return;
    }
    var s := a[..];
    ghost var done: seq<seq<nat>> := [];
    assert s[0..] == s;
    var i: nat := 0;
    while i < |s|
      invariant CutUpTo(s, chunkSize, i, done) && DescribeAll(chunks, done)
      decreases |s| - i
    {
      var end := if i + chunkSize < |s| then i + chunkSize else |s|;
      var c := DescribeChunk(s[i..end]);
      NextChunk(s, chunkSize, i, done, end);
      DescribeSnoc(chunks, done, c, s[i..end]);
      done := done + [s[i..end]];
      chunks := chunks + [c];
      i := i + chunkSize;
    }
    CutEverything(s, chunkSize, i, done);
  }

  lemma {:induction false} FlattenMembers(parts: seq<seq<nat>>, k: nat, x: nat)
    requires k < |parts| && x in parts[k]
    ensures x in Flatten(parts)
  {
    if k > 0 {
      FlattenMembers(parts[1..], k - 1, x);
    }
  }

  lemma {:induction false} FlattenOrigin(parts: seq<seq<nat>>, x: nat) returns (k: nat)
    requires x in Flatten(parts)
    ensures k < |parts| && x in parts[k]
  {
    if x in parts[0] {
      k := 0;
    } else {
      k := FlattenOrigin(parts[1..], x);
      k := k + 1;
    }
  }

  /** The smallest of the chunk minima is the minimum of the array, the largest of the maxima its maximum. */
  lemma ChunkExtremes(s: seq<nat>, size: nat, chunks: seq<Chunk>, lo: nat, hi: nat)
    requires size > 0 && s != [] && DescribeAll(chunks, ChunksOf(s, size)) && IsMin(s, lo) && IsMax(s, hi)
    ensures (exists k :: 0 <= k < |chunks| && chunks[k].min == lo) && forall k | 0 <= k < |chunks| :: lo <= chunks[k].min
    ensures (exists k :: 0 <= k < |chunks| && chunks[k].max == hi) && forall k | 0 <= k < |chunks| :: chunks[k].max <= hi
  {
    var parts := ChunksOf(s, size);
    ChunksPartition(s, size);
    forall k: nat | k < |chunks|
      ensures lo <= chunks[k].min && chunks[k].max <= hi
    {
      assert Describes(chunks[k], parts[k]);
      FlattenMembers(parts, k, chunks[k].min);
      FlattenMembers(parts, k, chunks[k].max);
    }
    var a := FlattenOrigin(parts, lo);
    assert Describes(chunks[a], parts[a]);
    var b := FlattenOrigin(parts, hi);
    assert Describes(chunks[b], parts[b]);
  }

  // ---- compute_statistics ----

  datatype Statistics = Statistics(numOperations: nat, mean: nat, stddev: nat, median: nat, min: nat, max: nat,
                                   p90: nat, p95: nat, p97: nat, p99: nat, chunks: seq<Chunk>)

  const EMPTY := Statistics(0, 0, 0, 0, 0, 0, 0, 0, 0, 0, [])

  ghost predicate MomentsOf(mean: nat, stddev: nat, s: seq<nat>) {
    s != [] && IsMean(s, mean) && stddev == Wrap(Wrap(SumSquares(s)) / |s| - Wrap(Square(mean)))
  }

  ghost predicate RanksOf(median: nat, p90: nat, p95: nat, p97: nat, p99: nat, s: seq<nat>) {
    && s != [] && IsMedian(s, median)
    && IsPercentile(s, 90, p90)
    && IsPercentile(s, 95, p95)
    && IsPercentile(s, 97, p97)
    && IsPercentile(s, 99, p99)
  }

  /** What the fields say about the latencies s. The field m_stddev holds a variance. */
  ghost predicate Summarizes(r: Statistics, s: seq<nat>) {
    && r.numOperations == |s|
    && MomentsOf(r.mean, r.stddev, s)
    && IsMin(s, r.min) && IsMax(s, r.max)
    && RanksOf(r.median, r.p90, r.p95, r.p97, r.p99, s)
  }

  method Moments(a: array<nat>) returns (sum: nat, sum2: nat, lo: nat, hi: nat)
    requires Values64(a[..])
    ensures sum == Wrap(Sum(a[..])) && sum2 == Wrap(SumSquares(a[..])) && Extremes(a[..], a.Length, lo, hi)
  {
    ghost var s := a[..];
    sum, sum2, lo, hi := 0, 0, U64 - 1, 0;
    for i := 0 to a.Length
      invariant sum == Wrap(Sum(s[..i])) && sum2 == Wrap(SumSquares(s[..i])) && Extremes(s, i, lo, hi)
    {
      var value := a[i];
      MomentsSnoc(s, i);
      WrapAdd(Sum(s[..i]), value);
      ExtremesStep(s, i, lo, hi);
      AddWrapped(SumSquares(s[..i]), Square(value));
      sum := Wrap(sum + value);
      sum2 := Wrap(sum2 + Wrap(Square(value)));
      lo, hi := Min(value, lo), Max(value, hi);
    }
    assert s[..a.Length] == s;
  }

  lemma AddWrapped(a: int, b: int)
    ensures Wrap(Wrap(a) + Wrap(b)) == Wrap(a + b)
  {
    WrapAdd(b, Wrap(a));
    WrapAdd(a, b);
  }

  method WriteBack(a: array<nat>, t: seq<nat>)
    requires a.Length == |t|
    modifies a
    ensures a[..] == t
  {
    for i := 0 to a.Length
      invariant a[..i] == t[..i]
    {
      a[i] := t[i];
      assert a[..i + 1] == a[..i] + [t[i]] && t[..i + 1] == t[..i] + [t[i]];
    }
  }

  method Ranks(sorted: seq<nat>, ghost s: seq<nat>) returns (median: nat, p90: nat, p95: nat, p97: nat, p99: nat)
    requires sorted != [] && NonDecreasing(sorted) && multiset(s) == multiset(sorted)
    ensures RanksOf(median, p90, p95, p97, p99, s)
  {
    assert |multiset(s)| == |multiset(sorted)|;
    p90 := Percentile(sorted, 90, s);
    p95 := Percentile(sorted, 95, s);
    p97 := Percentile(sorted, 97, s);
    p99 := Percentile(sorted, 99, s);
    median := Median(sorted, s);
  }

  method MeanAndVariance(a: array<nat>) returns (mean: nat, stddev: nat, lo: nat, hi: nat)
    requires Values64(a[..]) && a.Length > 0
    ensures MomentsOf(mean, stddev, a[..]) && IsMin(a[..], lo) && IsMax(a[..], hi)
  {
    var sum, sum2;
    sum, sum2, lo, hi := Moments(a);
    ExtremesOfAll(a[..], lo, hi);
    mean := Mean(sum, a.Length, a[..]);
    stddev := Variance(sum2, mean, a.Length, a[..]);
  }

  method Variance(sum2: nat, mean: nat, n: nat, ghost s: seq<nat>) returns (v: nat)
    requires n == |s| > 0 && IsMean(s, mean) && sum2 == Wrap(SumSquares(s))
    ensures MomentsOf(mean, v, s)
  {
    v := Wrap(sum2 / n - Wrap(Square(mean)));
  }

  /** compute_statistics; the array comes back sorted. */
  method ComputeStatistics(a: array<nat>, chunkSize: nat) returns (r: Statistics)
    requires Values64(a[..])
    modifies a
    ensures multiset(a[..]) == multiset(old(a[..])) && NonDecreasing(a[..])
    ensures a.Length == 0 ==> r == EMPTY
    ensures a.Length > 0 ==> Summarizes(r, old(a[..]))
    ensures a.Length > 0 && chunkSize > 0 ==> DescribeAll(r.chunks, ChunksOf(old(a[..]), chunkSize))
    ensures chunkSize == 0 ==> r.chunks == []
  {
    if a.Length == 0 {
      return EMPTY;
    }
    ghost var s := a[..];
    var mean, stddev, lo, hi := MeanAndVariance(a);
    var chunks := DescribeChunks(a, chunkSize);
    var sorted := Sort(a[..]);
    WriteBack(a, sorted);
    var median, p90, p95, p97, p99 := Ranks(a[..], s);
    r := Statistics(a.Length, mean, stddev, median, lo, hi, p90, p95, p97, p99, chunks);
  }

  /** While the sums fit, the second moment is exact and no subtraction underflows. */
  lemma VarianceIsExact(r: Statistics, s: seq<nat>)
    requires Summarizes(r, s) && Fits(s)
    ensures r.mean == Sum(s) / |s|
    ensures r.stddev == SumSquares(s) / |s| - Square(r.mean)
  {
    SumFits(s);
    VarianceNotNegative(s);
    assert SumSquares(s) / |s| <= SumSquares(s) by {
      QuotientBound(SumSquares(s), |s|);
    }
  }

  lemma QuotientBound(x: nat, n: nat)
    requires n > 0
    ensures x / n <= x
  {
    FloorTimes(n, x);
    MulMonotone(x / n, 1, n);
  }

  /** min <= p90 <= p95 <= p97 <= p99 <= max. */
  lemma PercentilesAscend(r: Statistics, s: seq<nat>)
    requires Summarizes(r, s)
    ensures r.min <= r.p90 <= r.p95 <= r.p97 <= r.p99 <= r.max
  {
    var n := |s|;
    ExtremesAreRanks(s, r.min, r.max);
    PositionsAscend(n, 90, 95);
    PositionsAscend(n, 95, 97);
    PositionsAscend(n, 97, 99);
    RanksAscend(s, 0, r.min, PercentilePosition(n, 90), r.p90);
    RanksAscend(s, PercentilePosition(n, 90), r.p90, PercentilePosition(n, 95), r.p95);
    RanksAscend(s, PercentilePosition(n, 95), r.p95, PercentilePosition(n, 97), r.p97);
    RanksAscend(s, PercentilePosition(n, 97), r.p97, PercentilePosition(n, 99), r.p99);
    RanksAscend(s, PercentilePosition(n, 99), r.p99, n - 1, r.max);
  }

  // ---- What the ranks mean ----

  lemma FirstRankIsMin(s: seq<nat>, p: nat)
    ensures IsRank(s, 0, p) <==> IsMin(s, p)
  {
    if IsMin(s, p) {
      NothingBelow(s, p - 1);
      var i :| 0 <= i < |s| && s[i] == p;
      CountLeRemoved(s, i, p);
    }
    if IsRank(s, 0, p) {
      CountLeZero(s, p - 1);
      if p !in s {
        NothingBelow(s, p);
      }
    }
  }

  lemma {:induction false} CountLeZero(s: seq<nat>, x: int)
    requires CountLe(s, x) <= 0
    ensures forall i | 0 <= i < |s| :: x < s[i]
  {
    if s != [] {
      CountLeZero(s[..|s| - 1], x);
    }
  }

  lemma HundredTimes(c: nat, total: nat)
    ensures c < total / 100 <==> 100 * (c + 1) <= total
    ensures total / 100 <= c <==> total < 100 * (c + 1)
  {}

  /** The percentile of index i is the value p with fewer than i percent of the entries below it and, but for one
      entry, at least i percent not above it: the smallest value if i percent are less than one entry. */
  lemma PercentileMeans(s: seq<nat>, index: nat, p: nat)
    requires s != [] && index <= 100
    ensures IsPercentile(s, index, p) <==>
      if index * |s| < 100 then IsMin(s, p)
      else 100 * (CountLe(s, p - 1) + 1) <= index * |s| < 100 * (CountLe(s, p) + 1)
  {
    HundredTimes(CountLe(s, p - 1), index * |s|);
    HundredTimes(CountLe(s, p), index * |s|);
    FirstRankIsMin(s, p);
  }

  /** Half of the entries are not above the median, and no more than half are below it. */
  lemma MedianIsCentral(s: seq<nat>, m: nat)
    requires s != [] && IsMedian(s, m) && forall i | 0 <= i < |s| :: 2 * s[i] < U64
    ensures 2 * CountLe(s, m - 1) <= |s| <= 2 * CountLe(s, m)
  {
    if |s| % 2 == 0 {
      var a: nat, b: nat :| MiddlePair(s, a, b) && m == Wrap(b + a) / 2;
      RanksAscend(s, |s| / 2 - 1, a, |s| / 2, b);
      RankOccurs(s, |s| / 2 - 1, a);
      RankOccurs(s, |s| / 2, b);
      CountLeMonotone(s, a, m);
      CountLeMonotone(s, m - 1, b - 1);
    }
  }

  lemma RankOccurs(s: seq<nat>, k: int, p: nat)
    requires IsRank(s, k, p)
    ensures p in s
  {
    if p !in s {
      CountLeGap(s, p);
    }
  }

  lemma {:induction false} CountLeGap(s: seq<nat>, p: nat)
    requires p !in s
    ensures CountLe(s, p - 1) == CountLe(s, p)
  {
    if s != [] {
      var last := |s| - 1;
      assert s[last] != p;
      CountLeGap(s[..last], p);
    }
  }
}
