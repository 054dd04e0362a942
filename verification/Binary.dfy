/** Bytes and fixed-width unsigned integers. */
module Binary {
  type byte = x: int | 0 <= x < 256

  const TWO32: nat := 0x1_0000_0000
  const TWO64: nat := 0x1_0000_0000_0000_0000

  type uint32 = x: int | 0 <= x < TWO32
  type uint64 = x: int | 0 <= x < TWO64

  /** Four bytes, least significant first. */
  function PutU32(n: uint32): seq<byte> {
    [n % 256, n / 0x100 % 256, n / 0x1_0000 % 256, n / 0x100_0000]
  }

  function GetU32(b: seq<byte>): uint32
    requires |b| >= 4
  {
    var b0: int, b1: int, b2: int, b3: int := b[0], b[1], b[2], b[3];
    b0 + 0x100 * b1 + 0x1_0000 * b2 + 0x100_0000 * b3
  }

  lemma GetPut(n: uint32, rest: seq<byte>)
    ensures GetU32(PutU32(n) + rest) == n
  {
    var m := n / 0x100;
    assert n == n % 256 + 0x100 * m;
    var o := m / 0x100;
    assert m == m % 256 + 0x100 * o;
    assert n / 0x1_0000 == o;
    assert o == o % 256 + 0x100 * (o / 0x100);
    assert n / 0x100_0000 == o / 0x100;
  }
}
