/** Unsigned integers packed into a few bytes each, graph/cbytearray.cpp:24-155. */
module ByteArray {
  import opened Counting
  import opened Numbers
  import opened Options

  // ---- Little endian numbers ----

  ghost function Pow256(k: nat): (p: nat)
    ensures p > 0
  {
    if k == 0 then 1 else 256 * Pow256(k - 1)
  }

  type Byte = x: nat | x < 256

  /** What the union of a key and its bytes reads. */
  function Decode(s: seq<Byte>): nat {
    if s == [] then 0 else s[0] + 256 * Decode(s[1..])
  }

  /** The lowest bytes of a key. */
  function Encode(value: nat, width: nat): (s: seq<Byte>)
    ensures |s| == width
  {
    if width == 0 then [] else [value % 256] + Encode(value / 256, width - 1)
  }

  lemma {:induction false} DecodeBound(s: seq<Byte>)
    ensures Decode(s) < Pow256(|s|)
  {
    if s != [] {
      DecodeBound(s[1..]);
    }
  }

  lemma LowByte(value: nat, p: nat)
    requires p > 0
    ensures value % 256 + 256 * ((value / 256) % p) == value % (256 * p)
  {
    var q, r := value / 256 / p, (value / 256) % p;
    assert value / 256 == q * p + r;
    assert value == (256 * p) * q + (256 * r + value % 256);
    Remainder(256 * p, q, 256 * r + value % 256);
  }

  lemma Remainder(m: nat, q: nat, r: nat)
    requires r < m
    ensures (m * q + r) % m == r
  {
    var n := m * q + r;
    var q', r' := n / m, n % m;
    assert n == m * q' + r';
    if q' < q {
      MulGap(m, q', q);
    } else if q < q' {
      MulGap(m, q, q');
    }
  }

  /** Keeping width bytes keeps the value modulo 256^width. */
  lemma {:induction false} DecodeEncode(value: nat, width: nat)
    ensures Decode(Encode(value, width)) == value % Pow256(width)
    decreases width
  {
    if width > 0 {
      DecodeEncode(value / 256, width - 1);
      assert Encode(value, width)[1..] == Encode(value / 256, width - 1);
      LowByte(value, Pow256(width - 1));
    }
  }

  lemma LowDigit(b: nat, d: nat)
    requires b < 256
    ensures (b + 256 * d) % 256 == b && (b + 256 * d) / 256 == d
  {}

  lemma {:induction false} EncodeDecode(s: seq<Byte>)
    ensures Encode(Decode(s), |s|) == s
  {
    if s != [] {
      EncodeDecode(s[1..]);
      LowDigit(s[0], Decode(s[1..]));
      assert s == [s[0]] + s[1..];
    }
  }

  lemma {:induction false} EncodePrefix(value: nat, width: nat, longer: nat)
    requires width <= longer
    ensures Encode(value, longer)[..width] == Encode(value, width)
    decreases width
  {
    if width > 0 {
      EncodePrefix(value / 256, width - 1, longer - 1);
      assert Encode(value, longer) == [value % 256] + Encode(value / 256, longer - 1);
    }
  }

  ghost function Zeros(k: nat): (s: seq<Byte>)
    ensures |s| == k && forall i | 0 <= i < k :: s[i] == 0
  {
    seq(k, _ => 0)
  }

  lemma {:induction false} DecodePadded(s: seq<Byte>, k: nat)
    ensures Decode(s + Zeros(k)) == Decode(s)
    decreases |s| + k
  {
    if s == [] {
      if k > 0 {
        assert Zeros(k)[1..] == Zeros(k - 1) == [] + Zeros(k - 1);
        DecodePadded([], k - 1);
        assert [] + Zeros(k) == Zeros(k);
      } else {
        assert s + Zeros(0) == s;
      }
    } else {
      assert (s + Zeros(k))[1..] == s[1..] + Zeros(k);
      DecodePadded(s[1..], k);
    }
  }

  ghost predicate Fits(x: nat, width: nat) {
    x < Pow256(width)
  }

  // ---- The width for a maximum ----

  ghost function Pow2(k: nat): (p: nat)
    ensures p > 0
  {
    if k == 0 then 1 else 2 * Pow2(k - 1)
  }

  /** ceil(log2(value)). */
  function CeilLog2(value: nat): nat
    requires value >= 1
  {
    if value == 1 then 0 else 1 + CeilLog2((value + 1) / 2)
  }

  lemma {:induction false} CeilLog2Bounds(value: nat)
    requires value >= 1
    ensures value <= Pow2(CeilLog2(value))
    ensures value > 1 ==> CeilLog2(value) > 0 && Pow2(CeilLog2(value) - 1) < value
  {
    if value > 1 {
      CeilLog2Bounds((value + 1) / 2);
    }
  }

  /** compute_bytes_per_elements, with an exact logarithm. */
  function BytesPerElement(value: nat): nat
    requires value >= 1
  {
    (CeilLog2(value) + 7) / 8
  }

  lemma {:induction false} Pow2Grows(a: nat, b: nat)
    requires a <= b
    ensures Pow2(a) <= Pow2(b)
    decreases b
  {
    if a < b {
      Pow2Grows(a, b - 1);
    }
  }

  lemma {:induction false} Pow256IsPow2(k: nat)
    ensures Pow256(k) == Pow2(8 * k)
  {
    if k > 0 {
      Pow256IsPow2(k - 1);
      EightMore(8 * (k - 1));
    }
  }

  lemma EightMore(b: nat)
    ensures Pow2(b + 8) == 256 * Pow2(b)
  {
    assert Pow2(b + 4) == 16 * Pow2(b) by {
      assert Pow2(b + 2) == 4 * Pow2(b);
    }
    assert Pow2(b + 8) == 16 * Pow2(b + 4) by {
      assert Pow2(b + 6) == 4 * Pow2(b + 4);
    }
  }

  /** The width is the least w with value <= 256^w. */
  lemma BytesPerElementIsLeast(value: nat)
    requires value >= 1
    ensures value <= Pow256(BytesPerElement(value))
    ensures BytesPerElement(value) > 0 ==> Pow256(BytesPerElement(value) - 1) < value
  {
    var bits, w := CeilLog2(value), BytesPerElement(value);
    CeilLog2Bounds(value);
    Pow256IsPow2(w);
    Pow2Grows(bits, 8 * w);
    if w > 0 {
      Pow256IsPow2(w - 1);
      Pow2Grows(8 * (w - 1), bits - 1);
    }
  }

  ghost predicate IsPowerOf256(value: nat) {
    exists k: nat :: value == Pow256(k)
  }

  lemma {:induction false} Pow256Grows(a: nat, b: nat)
    requires a < b
    ensures Pow256(a) < Pow256(b)
    decreases b
  {
    if a < b - 1 {
      Pow256Grows(a, b - 1);
    }
  }

  /** The width computed for a maximum holds everything below it, and the maximum itself unless that
      is a power of 256. */
  lemma WidthHoldsMaximumIff(value: nat)
    requires value >= 1
    ensures Fits(value, BytesPerElement(value)) <==> !IsPowerOf256(value)
    ensures forall x: nat {:trigger Fits(x, BytesPerElement(value))} | x < value :: Fits(x, BytesPerElement(value))
  {
    var w := BytesPerElement(value);
    BytesPerElementIsLeast(value);
    if k: nat :| value == Pow256(k) {
      if k < w - 1 {
        Pow256Grows(k, w - 1);
      }
      if w < k {
        Pow256Grows(w, k);
      }
    }
  }

  lemma EightBytes()
    ensures Pow256(8) == U64 && U64_MAX + 1 == U64 && 2 * (INT64_MAX + 1) == U64
  {
    assert Pow256(2) == 0x1_0000;
    assert Pow256(4) == 0x1_0000_0000;
    assert Pow256(6) == 0x1_0000_0000_0000;
  }

  lemma ModKeeps(x: nat, p: nat)
    requires p > 0
    ensures x % p == x <==> x < p
  {}

  lemma FittingIsKept(x: nat, width: nat)
    requires Fits(x, width) && width <= 8
    ensures x < U64 && x % Pow256(width) == x
  {
    ModKeeps(x, Pow256(width));
    EightBytes();
    if width < 8 {
      Pow256Grows(width, 8);
    }
  }

  lemma WidthAtMostEight(value: nat)
    requires 1 <= value < U64
    ensures BytesPerElement(value) <= 8
    ensures BytesPerElement(value) == 0 <==> value == 1
  {
    BytesPerElementIsLeast(value);
    var w := BytesPerElement(value);
    EightBytes();
    if w > 9 {
      Pow256Grows(8, w - 1);
    }
  }

  // ---- The array ----

  /** Where the bytes of element i start. */
  function Base(i: nat, width: nat): nat {
    i * width
  }

  lemma SlotsAreDisjoint(i: nat, j: nat, width: nat)
    requires i < j
    ensures Base(i, width) + width <= Base(j, width)
  {
    MulGap(width, i, j);
  }

  ghost function Slot(s: seq<Byte>, width: nat, i: nat): seq<Byte>
    requires Base(i, width) + width <= |s|
  {
    s[Base(i, width)..Base(i, width) + width]
  }

  ghost function ValueAt(s: seq<Byte>, width: nat, i: nat): nat
    requires Base(i, width) + width <= |s|
  {
    Decode(Slot(s, width, i))
  }

  lemma SlotInRange(n: nat, width: nat, i: nat)
    requires i < n
    ensures Base(i, width) + width <= Base(n, width)
  {
    SlotsAreDisjoint(i, n, width);
  }

  ghost function ValuesOf(s: seq<Byte>, width: nat, n: nat): (v: seq<nat>)
    requires Base(n, width) <= |s|
    ensures |v| == n
  {
    seq(n, i requires 0 <= i < n => SlotInRange(n, width, i); ValueAt(s, width, i))
  }

  lemma OtherSlots(s: seq<Byte>, t: seq<Byte>, width: nat, n: nat, i: nat, j: nat)
    requires |s| == |t| == Base(n, width) && i < n && j < n && i != j
    requires forall b | 0 <= b < |s| && !(Base(i, width) <= b < Base(i, width) + width) :: t[b] == s[b]
    ensures Base(j, width) + width <= |s| && Slot(t, width, j) == Slot(s, width, j)
  {
    SlotInRange(n, width, j);
    if i < j {
      SlotsAreDisjoint(i, j, width);
    } else {
      SlotsAreDisjoint(j, i, width);
    }
  }

  // ---- Sorting ----

  /** The entries up to i are sorted, but for the one at j, which may have to move down. */
  ghost predicate SortedExcept(s: seq<nat>, i: nat, j: nat) {
    j <= i < |s| && forall a, b | 0 <= a < b <= i && b != j :: s[a] <= s[b]
  }

  lemma PrefixIsSorted(s: seq<nat>, i: nat)
    requires i < |s| && NonDecreasing(s[..i])
    ensures SortedExcept(s, i, i)
  {
    forall a, b | 0 <= a < b < i
      ensures s[a] <= s[b]
    {
      assert s[..i][a] <= s[..i][b];
    }
  }

  lemma MoveDown(s: seq<nat>, i: nat, j: nat)
    requires 0 < j && SortedExcept(s, i, j) && s[j] < s[j - 1]
    ensures SortedExcept(s[j - 1 := s[j]][j := s[j - 1]], i, j - 1)
    ensures multiset(s[j - 1 := s[j]][j := s[j - 1]]) == multiset(s)
  {}

  lemma SortedPrefixGrows(s: seq<nat>, i: nat, j: nat)
    requires SortedExcept(s, i, j) && (j == 0 || s[j - 1] <= s[j])
    ensures NonDecreasing(s[..i + 1])
  {
    forall a, b | 0 <= a <= b < i + 1
      ensures s[a] <= s[b]
    {
      assert a < j - 1 && b == j ==> s[a] <= s[j - 1];
    }
  }

  class CByteArray {
    const width: nat
    const capacity: nat
    const bytes: array<Byte>

    ghost predicate Valid() {
      1 <= width <= 8 && bytes.Length == Base(capacity, width)
    }

    ghost function Values(): (v: seq<nat>)
      requires Valid()
      reads bytes
      ensures |v| == capacity
    {
      ValuesOf(bytes[..], width, capacity)
    }

    /** Other widths make the constructor throw. */
    constructor (width: nat, capacity: nat)
      requires 1 <= width <= 8
      ensures Valid() && this.width == width && this.capacity == capacity && fresh(bytes)
    {
      this.width := width;
      this.capacity := capacity;
      bytes := new Byte[Base(capacity, width)];
    }

    method GetValueAt(index: nat) returns (value: nat)
      requires Valid() && index < capacity
      ensures value == Values()[index] && Fits(value, width)
    {
      SlotInRange(capacity, width, index);
      var key := new Byte[8](_ => 0);
      var base := Base(index, width);
      for i := 0 to width
        invariant key[..i] == bytes[base..base + i]
        invariant forall k | i <= k < 8 :: key[k] == 0
      {
        key[i] := bytes[base + i];
      }
      assert key[..] == bytes[base..base + width] + Zeros(8 - width);
      DecodePadded(bytes[base..base + width], 8 - width);
      DecodeBound(bytes[base..base + width]);
      value := Decode(key[..]);
    }

    /** Read after write gives the value modulo 256^width, and no other element changes. */
    method SetValueAt(index: nat, value: nat)
      requires Valid() && index < capacity && value < U64
      modifies bytes
      ensures Values() == old(Values())[index := value % Pow256(width)]
    {
      SlotInRange(capacity, width, index);
      var key := Encode(value, 8);
      var base := Base(index, width);
      ghost var before := bytes[..];
      for i := 0 to width
        invariant bytes[base..base + i] == key[..i]
        invariant forall b | 0 <= b < bytes.Length && !(base <= b < base + width) :: bytes[b] == before[b]
      {
        bytes[base + i] := key[i];
      }
      EncodePrefix(value, width, 8);
      DecodeEncode(value, width);
      assert Slot(bytes[..], width, index) == Encode(value, width);
      forall j | 0 <= j < capacity && j != index
        ensures Values()[j] == ValuesOf(before, width, capacity)[j]
      {
        OtherSlots(before, bytes[..], width, capacity, index, j);
      }
    }

    /** swap of two references into the array. */
    method Swap(i: nat, j: nat)
      requires Valid() && i < capacity && j < capacity
      modifies bytes
      ensures Values() == old(Values()[i := Values()[j]][j := Values()[i]])
    {
      var x := GetValueAt(i);
      var y := GetValueAt(j);
      FittingIsKept(x, width);
      FittingIsKept(y, width);
      SetValueAt(i, y);
      SetValueAt(j, x);
    }

    method SinkInto(i: nat)
      requires Valid() && i < capacity && NonDecreasing(Values()[..i])
      modifies bytes
      ensures NonDecreasing(Values()[..i + 1]) && multiset(Values()) == multiset(old(Values()))
    {
      ghost var all := multiset(Values());
      var j := i;
      PrefixIsSorted(Values(), i);
      while j > 0
        invariant SortedExcept(Values(), i, j) && multiset(Values()) == all
      {
        var x := GetValueAt(j - 1);
        var y := GetValueAt(j);
        if x <= y {
          break;
        }
        ghost var before := Values();
        MoveDown(before, i, j);
        Swap(j - 1, j);
        j := j - 1;
      }
      SortedPrefixGrows(Values(), i, j);
    }

    /** CByteArray::sort, with any correct sort in the place of std::sort. */
    method Sort()
      requires Valid()
      modifies bytes
      ensures NonDecreasing(Values()) && multiset(Values()) == multiset(old(Values()))
    {
      for i := 0 to capacity
        invariant NonDecreasing(Values()[..i]) && multiset(Values()) == multiset(old(Values()))
      {
        SinkInto(i);
      }
      assert Values()[..capacity] == Values();
    }
  }

  // ---- Merging arrays ----

  ghost predicate AllValid(arrays: seq<CByteArray?>) {
    forall i | 0 <= i < |arrays| && arrays[i] != null :: arrays[i].Valid()
  }

  ghost predicate SameWidth(arrays: seq<CByteArray?>, width: nat) {
    forall i | 0 <= i < |arrays| && arrays[i] != null :: arrays[i].width == width
  }

  /** The elements of the arrays one after the other; null entries are skipped. */
  ghost function Chained(arrays: seq<CByteArray?>): seq<nat>
    requires AllValid(arrays)
    reads set i | 0 <= i < |arrays| && arrays[i] != null :: arrays[i].bytes
  {
    if arrays == [] then []
    else
      var last := arrays[|arrays| - 1];
      Chained(arrays[..|arrays| - 1]) + if last == null then [] else last.Values()
  }

  lemma BaseSum(n: nat, m: nat, width: nat)
    ensures Base(n + m, width) == Base(n, width) + Base(m, width)
  {}

  lemma ValueInFirst(s: seq<Byte>, n: nat, t: seq<Byte>, width: nat, i: nat)
    requires |s| == Base(n, width) && i < n
    ensures Base(i, width) + width <= |s| && ValueAt(s + t, width, i) == ValueAt(s, width, i)
  {
    SlotInRange(n, width, i);
    assert Slot(s + t, width, i) == Slot(s, width, i);
  }

  lemma ValueInSecond(s: seq<Byte>, n: nat, t: seq<Byte>, m: nat, width: nat, i: nat)
    requires |s| == Base(n, width) && |t| == Base(m, width) && i < m
    ensures Base(i, width) + width <= |t| && Base(n + i, width) + width <= |s + t|
    ensures ValueAt(s + t, width, n + i) == ValueAt(t, width, i)
  {
    SlotInRange(m, width, i);
    BaseSum(n, i, width);
    assert Slot(s + t, width, n + i) == Slot(t, width, i);
  }

  lemma ValuesOfConcat(s: seq<Byte>, n: nat, t: seq<Byte>, m: nat, width: nat)
    requires |s| == Base(n, width) && |t| == Base(m, width)
    ensures |s + t| == Base(n + m, width)
    ensures ValuesOf(s + t, width, n + m) == ValuesOf(s, width, n) + ValuesOf(t, width, m)
  {
    BaseSum(n, m, width);
    forall i | 0 <= i < n
      ensures ValuesOf(s + t, width, n + m)[i] == ValuesOf(s, width, n)[i]
    {
      ValueInFirst(s, n, t, width, i);
    }
    forall i | 0 <= i < m
      ensures ValuesOf(s + t, width, n + m)[n + i] == ValuesOf(t, width, m)[i]
    {
      ValueInSecond(s, n, t, m, width, i);
    }
    JoinPointwise(ValuesOf(s + t, width, n + m), ValuesOf(s, width, n), ValuesOf(t, width, m));
  }

  lemma JoinPointwise(r: seq<nat>, a: seq<nat>, b: seq<nat>)
    requires |r| == |a| + |b|
    requires forall i | 0 <= i < |a| :: r[i] == a[i]
    requires forall i | 0 <= i < |b| :: r[|a| + i] == b[i]
    ensures r == a + b
  {
    forall k | |a| <= k < |r|
      ensures r[k] == (a + b)[k]
    {
      assert r[|a| + (k - |a|)] == b[k - |a|];
    }
  }

  /** The first loop of merge: the common width, or None where it throws. */
  method CommonWidth(arrays: seq<CByteArray?>) returns (width: Option<nat>)
    requires AllValid(arrays)
    ensures width.None? <==> forall w :: !SameWidth(arrays, w)
    ensures width.Some? ==> 1 <= width.value <= 8 && SameWidth(arrays, width.value)
  {
    var w := 0;
    for i := 0 to |arrays|
      invariant 0 <= w <= 8 && SameWidth(arrays[..i], w)
      invariant w != 0 ==> exists k :: 0 <= k < i && arrays[k] != null && arrays[k].width == w
    {
      if arrays[i] != null {
        if !(w == 0 || w == arrays[i].width) {
          return None;
        }
        w := arrays[i].width;
      }
    }
    assert arrays[..|arrays|] == arrays;
    return Some(if w == 0 then 1 else w);
  }

  ghost function Sizes(arrays: seq<CByteArray?>): nat {
    if arrays == [] then 0
    else
      var last := arrays[|arrays| - 1];
      Sizes(arrays[..|arrays| - 1]) + if last == null then 0 else last.capacity
  }

  lemma SizesSnoc(arrays: seq<CByteArray?>, i: nat)
    requires i < |arrays|
    ensures arrays[..i + 1][..i] == arrays[..i]
    ensures Sizes(arrays[..i + 1]) == Sizes(arrays[..i]) + if arrays[i] == null then 0 else arrays[i].capacity
  {
    assert arrays[..i + 1][..i] == arrays[..i];
  }

  lemma {:induction false} SizesGrow(arrays: seq<CByteArray?>, i: nat, width: nat)
    requires i <= |arrays|
    ensures Sizes(arrays[..i]) <= Sizes(arrays) && Base(Sizes(arrays[..i]), width) <= Base(Sizes(arrays), width)
    decreases |arrays| - i
  {
    if i == |arrays| {
      assert arrays[..i] == arrays;
    } else {
      SizesGrow(arrays, i + 1, width);
      SizesSnoc(arrays, i);
      if arrays[i] != null {
        BaseSum(Sizes(arrays[..i]), arrays[i].capacity, width);
      }
    }
  }

  method TotalCapacity(arrays: seq<CByteArray?>) returns (capacity: nat)
    ensures capacity == Sizes(arrays)
  {
    capacity := 0;
    for i := 0 to |arrays|
      invariant capacity == Sizes(arrays[..i])
    {
      SizesSnoc(arrays, i);
      if arrays[i] != null {
        capacity := capacity + arrays[i].capacity;
      }
    }
    assert arrays[..|arrays|] == arrays;
  }

  /** memcpy. */
  method CopyBytes(dst: array<Byte>, at: nat, src: array<Byte>)
    requires dst != src && at + src.Length <= dst.Length
    modifies dst
    ensures dst[..at + src.Length] == old(dst[..at]) + src[..]
  {
    for i := 0 to src.Length
      invariant dst[..at] == old(dst[..at]) && dst[at..at + i] == src[..i]
    {
      dst[at + i] := src[i];
      assert dst[at..at + i + 1] == dst[at..at + i] + [src[i]];
    }
    assert src[..src.Length] == src[..];
    assert dst[..at + src.Length] == dst[..at] + dst[at..at + src.Length];
  }

  /** The bytes of the arrays one after the other. */
  ghost function ChainedBytes(arrays: seq<CByteArray?>): seq<Byte>
    reads set i | 0 <= i < |arrays| && arrays[i] != null :: arrays[i].bytes
  {
    if arrays == [] then []
    else
      var last := arrays[|arrays| - 1];
      ChainedBytes(arrays[..|arrays| - 1]) + if last == null then [] else last.bytes[..]
  }

  lemma {:induction false} ChainedValues(arrays: seq<CByteArray?>, width: nat)
    requires AllValid(arrays) && SameWidth(arrays, width)
    ensures |ChainedBytes(arrays)| == Base(Sizes(arrays), width)
    ensures ValuesOf(ChainedBytes(arrays), width, Sizes(arrays)) == Chained(arrays)
  {
    if arrays != [] {
      var front, last := arrays[..|arrays| - 1], arrays[|arrays| - 1];
      ChainedValues(front, width);
      if last == null {
        assert ChainedBytes(front) + [] == ChainedBytes(front) && Chained(front) + [] == Chained(front);
      } else {
        assert last.Valid() && last.width == width;
        ValuesOfConcat(ChainedBytes(front), Sizes(front), last.bytes[..], last.capacity, width);
      }
    }
  }

  lemma ChainedBytesSnoc(arrays: seq<CByteArray?>, i: nat)
    requires i < |arrays|
    ensures ChainedBytes(arrays[..i + 1]) == ChainedBytes(arrays[..i]) + if arrays[i] == null then [] else arrays[i].bytes[..]
  {
    assert arrays[..i + 1][..i] == arrays[..i];
  }

  /** The bytes of the first i arrays have been copied. */
  ghost predicate CopiedUpTo(arrays: seq<CByteArray?>, width: nat, i: nat, dst: seq<Byte>, destination: nat, all: seq<Byte>)
    reads set k | 0 <= k < |arrays| && arrays[k] != null :: arrays[k].bytes
  {
    && i <= |arrays| && ChainedBytes(arrays) == all
    && destination == Base(Sizes(arrays[..i]), width) <= |dst|
    && dst[..destination] == ChainedBytes(arrays[..i])
  }

  /** One array. */
  method CopyNext(arrays: seq<CByteArray?>, width: nat, dst: array<Byte>, i: nat, at: nat, ghost all: seq<Byte>) returns (destination: nat)
    requires AllValid(arrays) && SameWidth(arrays, width) && dst.Length == Base(Sizes(arrays), width)
    requires forall k | 0 <= k < |arrays| && arrays[k] != null :: arrays[k].bytes != dst
    requires i < |arrays| && CopiedUpTo(arrays, width, i, dst[..], at, all)
    modifies dst
    ensures CopiedUpTo(arrays, width, i + 1, dst[..], destination, all)
  {
    destination := at;
    SizesSnoc(arrays, i);
    SizesGrow(arrays, i + 1, width);
    ChainedBytesSnoc(arrays, i);
    if arrays[i] != null {
      BaseSum(Sizes(arrays[..i]), arrays[i].capacity, width);
      assert arrays[i].Valid();
      ghost var before := dst[..at];
      CopyBytes(dst, at, arrays[i].bytes);
      destination := at + Base(arrays[i].capacity, width);
      assert dst[..][..destination] == dst[..destination];
    }
  }

  /** The second loop of merge. */
  method CopyAll(arrays: seq<CByteArray?>, width: nat, dst: array<Byte>)
    requires AllValid(arrays) && SameWidth(arrays, width) && dst.Length == Base(Sizes(arrays), width)
    requires forall i | 0 <= i < |arrays| && arrays[i] != null :: arrays[i].bytes != dst
    modifies dst
    ensures dst[..] == ChainedBytes(arrays) == old(ChainedBytes(arrays))
  {
    var destination: nat := 0;
    ghost var all := ChainedBytes(arrays);
    for i := 0 to |arrays|
      invariant CopiedUpTo(arrays, width, i, dst[..], destination, all)
    {
      destination := CopyNext(arrays, width, dst, i, destination, all);
    }
    assert arrays[..|arrays|] == arrays && dst[..][..destination] == dst[..];
  }

  /** CByteArray::merge; None where it throws. */
  method Merge(arrays: seq<CByteArray?>) returns (r: Option<CByteArray>)
    requires AllValid(arrays)
    ensures r.None? <==> forall w :: !SameWidth(arrays, w)
    ensures r.Some? ==> fresh(r.value) && r.value.Valid() && r.value.Values() == Chained(arrays)
  {
    var width := CommonWidth(arrays);
    if width.None? {
      return None;
    }
    var capacity := TotalCapacity(arrays);
    var merged := new CByteArray(width.value, capacity);
    CopyAll(arrays, width.value, merged.bytes);
    ChainedValues(arrays, width.value);
    r := Some(merged);
  }
}
