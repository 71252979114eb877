/** Fixed-width length prefixes, as both the wire and the log file use them. */
module ByteOrder {
  import opened Changes

  const U32: nat := 0x1_0000_0000

  /** `u32::to_le_bytes`. */
  function Le32(n: nat): (b: Bytes)
    requires n < U32
    ensures |b| == 4
  {
    [n % 256, n / 256 % 256, n / 65536 % 256, n / 16777216]
  }

  /** `u32::from_le_bytes`. */
  function FromLe32(b: Bytes): (n: nat)
    requires |b| == 4
    ensures n < U32
  {
    b[0] as int + 256 * (b[1] as int) + 65536 * (b[2] as int) + 16777216 * (b[3] as int)
  }

  /** `u32::to_be_bytes`. */
  function Be32(n: nat): (b: Bytes)
    requires n < U32
    ensures |b| == 4
  {
    [n / 16777216, n / 65536 % 256, n / 256 % 256, n % 256]
  }

  /** `u32::from_be_bytes`. */
  function FromBe32(b: Bytes): (n: nat)
    requires |b| == 4
    ensures n < U32
  {
    b[3] as int + 256 * (b[2] as int) + 65536 * (b[1] as int) + 16777216 * (b[0] as int)
  }

  lemma Le32RoundTrip(n: nat)
    requires n < U32
    ensures FromLe32(Le32(n)) == n
  {
    assert n == n % 256 + 256 * (n / 256);
    assert n / 256 == n / 256 % 256 + 256 * (n / 65536);
    assert n / 65536 == n / 65536 % 256 + 256 * (n / 16777216);
  }

  lemma Be32RoundTrip(n: nat)
    requires n < U32
    ensures FromBe32(Be32(n)) == n
  {
    assert n == n % 256 + 256 * (n / 256);
    assert n / 256 == n / 256 % 256 + 256 * (n / 65536);
    assert n / 65536 == n / 65536 % 256 + 256 * (n / 16777216);
  }
}
