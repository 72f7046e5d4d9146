// Bytes, sectors and the fixed-width arithmetic shared by every module.
module Bytes {
  type byte = x: int | 0 <= x < 256

  type Sector = s: seq<byte> | |s| == 512 witness seq(512, _ => 0)

  function Zeros(n: nat): seq<byte> {
    seq(n, _ => 0)
  }

  // Big-endian bytes of a 32-bit word, as the device sends and reads them.
  function Split32(w: nat): (b: seq<byte>)
    ensures |b| == 4
  {
    [w / 0x100_0000 % 256, w / 0x1_0000 % 256, w / 0x100 % 256, w % 256]
  }

  /** The four bytes, most significant first, give the word. */
  lemma WordOfBytes(a: byte, b: byte, c: byte, d: byte)
    ensures Split32(a as nat * 0x100_0000 + b as nat * 0x1_0000 + c as nat * 0x100 + d as nat) == [a, b, c, d]
  {
    var w: nat := a as nat * 0x100_0000 + b as nat * 0x1_0000 + c as nat * 0x100 + d as nat;
    assert w / 0x100_0000 == a as nat && w / 0x1_0000 == a as nat * 0x100 + b as nat;
    assert w / 0x100 == a as nat * 0x1_0000 + b as nat * 0x100 + c as nat;
  }

  datatype Option<+T> = None | Some(value: T)
}
