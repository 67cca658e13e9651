/** Bytes and the big-endian integers of DNS wire formats. */
module Octets {

  type Byte = b: int | 0 <= b < 256

  predicate Is16Bit(n: int) {
    0 <= n <= 65535
  }

  function U16(n: int): (r: seq<Byte>)
    requires Is16Bit(n)
    ensures |r| == 2
  {
    [n / 256, n % 256]
  }

  function ReadU16(bs: seq<Byte>): (n: int)
    requires |bs| >= 2
    ensures Is16Bit(n)
  {
    (bs[0] as int) * 256 + bs[1] as int
  }

  lemma ReadU16Inverts(n: int, rest: seq<Byte>)
    requires Is16Bit(n)
    ensures ReadU16(U16(n) + rest) == n
  {
  }

  function U32(n: int): (r: seq<Byte>)
    requires 0 <= n < 0x1_0000_0000
    ensures |r| == 4
  {
    U16(n / 0x1_0000) + U16(n % 0x1_0000)
  }

  /** The 48-bit time field of a TSIG record, big-endian by 16-bit words. */
  function U48(n: int): (r: seq<Byte>)
    requires 0 <= n < 0x1_0000_0000_0000
    ensures |r| == 6
  {
    U16(n / 0x1_0000_0000) + U16(n / 0x1_0000 % 0x1_0000) + U16(n % 0x1_0000)
  }

  /** Writing the upper 16 and then the lower 32 bits writes the 48-bit integer. */
  lemma U48Split(n: int)
    requires 0 <= n < 0x1_0000_0000_0000
    ensures U16(n / 0x1_0000_0000) + U32(n % 0x1_0000_0000) == U48(n)
  {
    var lo := n % 0x1_0000_0000;
    assert lo / 0x1_0000 == n / 0x1_0000 % 0x1_0000;
    assert lo % 0x1_0000 == n % 0x1_0000;
  }

  lemma LowWord(n: int)
    requires n >= 0
    ensures n % 0x1_0000 / 256 == n / 256 % 256 && n % 0x1_0000 % 256 == n % 256
  {
    var q, r := n / 0x1_0000, n % 0x1_0000;
    assert n == q * 0x1_0000 + r;
    assert n / 256 == q * 256 + r / 256;
  }

  lemma HighWords(n: int)
    requires n >= 0
    ensures n / 0x1_0000 / 256 == n / 0x100_0000 && n / 0x1_0000_0000 / 256 == n / 0x100_0000_0000
  {
  }

  lemma U16Bytes(n: int)
    requires Is16Bit(n)
    ensures U16(n) == [n / 256, n % 256]
  {
  }

  /** The 48-bit integer byte by byte, most significant first. */
  lemma U48Bytes(n: int)
    requires 0 <= n < 0x1_0000_0000_0000
    ensures U48(n) == [n / 0x100_0000_0000, n / 0x1_0000_0000 % 256, n / 0x100_0000 % 256,
                       n / 0x1_0000 % 256, n / 0x100 % 256, n % 256]
  {
    HighWords(n);
    LowWord(n / 0x1_0000);
    LowWord(n);
    U16Bytes(n / 0x1_0000_0000);
    U16Bytes(n / 0x1_0000 % 0x1_0000);
    U16Bytes(n % 0x1_0000);
  }
}
