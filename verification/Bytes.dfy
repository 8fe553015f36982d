/** Bytes and the unsigned little-endian integers stored in them. */
module Bytes {

  type Byte = b: int | 0 <= b < 256

  const TWO_16: int := 0x1_0000
  const TWO_32: int := 0x1_0000_0000
  const TWO_64: int := 0x1_0000_0000_0000_0000

  function U16(data: seq<Byte>, at: nat): (n: nat)
    requires at + 2 <= |data|
    ensures n < TWO_16
  {
    data[at] as int + 0x100 * (data[at + 1] as int)
  }

  function U32(data: seq<Byte>, at: nat): (n: nat)
    requires at + 4 <= |data|
    ensures n < TWO_32
  {
    data[at] as int + 0x100 * (data[at + 1] as int) + 0x1_0000 * (data[at + 2] as int)
      + 0x100_0000 * (data[at + 3] as int)
  }

  function U64(data: seq<Byte>, at: nat): (n: nat)
    requires at + 8 <= |data|
    ensures n < TWO_64
  {
    U32(data, at) + TWO_32 * U32(data, at + 4)
  }

  function Le32(n: nat): (s: seq<Byte>)
    requires n < TWO_32
    ensures |s| == 4
  {
    var high := n / 0x100;
    var higher := high / 0x100;
    [n % 0x100, high % 0x100, higher % 0x100, higher / 0x100]
  }

  function Le64(n: nat): (s: seq<Byte>)
    requires n < TWO_64
    ensures |s| == 8
  {
    Le32(n % TWO_32) + Le32(n / TWO_32)
  }

  /** The four bytes written for `n` read back as `n`, wherever they lie. */
  lemma ReadBack32(data: seq<Byte>, at: nat, n: nat)
    requires n < TWO_32 && at + 4 <= |data|
    requires data[at..at + 4] == Le32(n)
    ensures U32(data, at) == n
  {
  }

  lemma ReadBackBytes(data: seq<Byte>, at: nat, n: nat)
    requires n < TWO_32 && at + 4 <= |data|
    requires data[at] == Le32(n)[0] && data[at + 1] == Le32(n)[1] && data[at + 2] == Le32(n)[2] && data[at + 3] == Le32(n)[3]
    ensures U32(data, at) == n
  {
  }
}
