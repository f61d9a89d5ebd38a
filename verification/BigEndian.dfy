/** Numbers as bytes, the most significant one first. */
module BigEndian {
  import opened Bytes

  const TWO16: nat := 0x1_0000
  const TWO32: nat := 0x1_0000_0000

  type uint16 = n: nat | n < TWO16
  type uint32 = n: nat | n < TWO32

  function Put16(n: nat): (b: seq<byte>)
    ensures |b| == 2
  {
    [n / 256 % 256, n % 256]
  }

  function Put32(n: uint32): (b: seq<byte>)
    ensures |b| == 4
  {
    [n / 0x100_0000 % 256, n / 0x1_0000 % 256, n / 0x100 % 256, n % 256]
  }

  function Get16(b: seq<byte>): uint16
    requires |b| == 2
  {
    b[0] as int * 256 + b[1]
  }

  function Get32(b: seq<byte>): uint32
    requires |b| == 4
  {
    b[0] as int * 0x100_0000 + b[1] as int * 0x1_0000 + b[2] as int * 0x100 + b[3]
  }

  lemma Put16Get16(b: seq<byte>, n: uint16)
    requires |b| == 2
    ensures Get16(b) == n <==> b == Put16(n)
    ensures b == Put16(n) <==> n == b[0] as int * 0x100 + b[1]
  {
  }

  lemma Put32Get32(b: seq<byte>, n: uint32)
    requires |b| == 4
    ensures Get32(b) == n <==> b == Put32(n)
    ensures b == Put32(n) <==> n == b[0] as int * 0x100_0000 + b[1] as int * 0x1_0000 + b[2] as int * 0x100 + b[3]
  {
    var b0, b1, b2: int := b[0], b[1], b[2];
    if Get32(b) == n {
      assert n / 0x100 == b0 * 0x1_0000 + b1 * 0x100 + b2;
      assert n / 0x1_0000 == b0 * 0x100 + b1;
      assert n / 0x100_0000 == b0;
    }
  }
}
