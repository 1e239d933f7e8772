/** Machine-level vocabulary shared by the codec, the framing and the record layer. */
module Bytes {

  type byte = b: int | 0 <= b < 0x100
  type uint16 = n: int | 0 <= n < 0x1_0000
  type uint32 = n: int | 0 <= n < 0x1_0000_0000
  type int64 = n: int | -0x8000_0000_0000_0000 <= n < 0x8000_0000_0000_0000

  /** A Go string: bytes, with no encoding attached. */
  type Text = seq<byte>

  const TWO_63 := 0x8000_0000_0000_0000
  const TWO_64 := 0x1_0000_0000_0000_0000

  /** The value a 64-bit two's complement register holds after an overflowing operation. */
  function Wrap64(n: int): (r: int64)
    ensures (r - n) % TWO_64 == 0
    ensures -TWO_63 <= n < TWO_63 ==> r == n
  {
    var low := n % TWO_64;
    if low < TWO_63 then low else low - TWO_64
  }

  /** Big-endian rendering of a 16-bit field (binary.BigEndian.PutUint16). */
  function PutUint16(n: uint16): (b: seq<byte>)
    ensures |b| == 2 && GetUint16(b) == n
  {
    [n / 0x100, n % 0x100]
  }

  /** binary.BigEndian.Uint16 */
  function GetUint16(b: seq<byte>): (n: uint16)
    requires |b| == 2
    ensures b == [n / 0x100, n % 0x100]
  {
    b[0] as int * 0x100 + b[1] as int
  }

  function PutUint32(n: uint32): (b: seq<byte>)
    ensures |b| == 4 && GetUint32(b) == n
  {
    var b := PutUint16(n / 0x1_0000) + PutUint16(n % 0x1_0000);
    assert b[..2] == PutUint16(n / 0x1_0000) && b[2..] == PutUint16(n % 0x1_0000);
    b
  }

  function GetUint32(b: seq<byte>): (n: uint32)
    requires |b| == 4
  {
    GetUint16(b[..2]) as int * 0x1_0000 + GetUint16(b[2..]) as int
  }

  /** Three base-256 digits make up a 24-bit number. */
  lemma ThreeBytes(n: nat)
    requires n < 0x100_0000
    ensures n / 0x1_0000 % 0x100 == n / 0x1_0000
    ensures n / 0x1_0000 * 0x1_0000 + n / 0x100 % 0x100 * 0x100 + n % 0x100 == n
  {
  }

  /** The number that bytes spell, most significant first. */
  function Number(b: seq<byte>): nat
  {
    if b == [] then 0 else Number(b[..|b| - 1]) * 0x100 + b[|b| - 1]
  }

  lemma NumberMore(b: seq<byte>, last: byte)
    ensures Number(b + [last]) == Number(b) * 0x100 + last
  {
    assert (b + [last])[..|b|] == b;
  }

  lemma NumberTwo(b: seq<byte>, hi: byte, lo: byte)
    ensures Number(b + [hi, lo]) == Number(b) * 0x1_0000 + hi as int * 0x100 + lo as int
  {
    NumberMore(b, hi);
    NumberMore(b + [hi], lo);
    assert b + [hi] + [lo] == b + [hi, lo];
  }

  lemma NumberThree(b: seq<byte>)
    requires |b| == 3
    ensures Number(b) == b[0] as int * 0x1_0000 + b[1] as int * 0x100 + b[2] as int
  {
    NumberTwo([b[0]], b[1], b[2]);
    NumberMore([], b[0]);
    assert [] + [b[0]] == [b[0]] && b == [b[0]] + [b[1], b[2]] && Number([]) == 0;
  }

  /** The fixed-width fields are big-endian. */
  lemma Uint16IsBigEndian(n: uint16)
    ensures Number(PutUint16(n)) == n
  {
    NumberTwo([], n / 0x100, n % 0x100);
    assert [] + [n / 0x100, n % 0x100] == [n / 0x100, n % 0x100];
    assert Number([]) == 0;
  }

  lemma Uint16Reads(b: seq<byte>)
    requires |b| == 2
    ensures GetUint16(b) == Number(b)
  {
    Uint16IsBigEndian(GetUint16(b));
  }

  lemma Uint32IsBigEndian(n: uint32)
    ensures Number(PutUint32(n)) == n
  {
    var hi, lo := n / 0x1_0000, n % 0x1_0000;
    Uint16IsBigEndian(hi);
    NumberTwo(PutUint16(hi), lo / 0x100, lo % 0x100);
  }

  lemma Uint32Reads(b: seq<byte>)
    requires |b| == 4
    ensures GetUint32(b) == Number(b)
  {
    var hi, lo := b[..2], b[2..];
    Uint16Reads(hi);
    NumberTwo(hi, b[2], b[3]);
    assert b == hi + [b[2], b[3]];
  }
}
