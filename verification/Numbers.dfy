/** Machine words and the arithmetic shared by several engines. */
module Numbers {
  const U64: nat := 0x1_0000_0000_0000_0000

  /** numeric_limits<uint64_t>::max(). */
  const U64_MAX: nat := 0xFFFF_FFFF_FFFF_FFFF

  /** numeric_limits<int64_t>::max(). */
  const INT64_MAX: nat := 0x7FFF_FFFF_FFFF_FFFF

  function Min(a: nat, b: nat): nat {
    if a < b then a else b
  }

  function Max(a: nat, b: nat): nat {
    if a < b then b else a
  }

  lemma MulMonotone(m: nat, a: nat, b: nat)
    requires a <= b
    ensures m * a <= m * b
  {
    assert m * b - m * a == m * (b - a);
  }

  lemma MulGap(m: nat, a: nat, b: nat)
    requires a < b
    ensures m * a + m <= m * b
  {
    assert m * b == m * (a + 1) + m * (b - a - 1);
  }
}
