/** Byte-level vocabulary shared by the player, the two offline encoders and the panel driver:
    octets, optional values, and the little- and big-endian integer layouts that Python's
    `struct` module produces for the format characters `H`, `I`, `i` and `Q`. */
module Bytes {

  type byte = b: int | 0 <= b < 256

  datatype Option<T> = None | Some(value: T)

  function Min(a: int, b: int): int { if a <= b then a else b }

  function Max(a: int, b: int): int { if a >= b then a else b }

  /** `n` zero bytes, as `bytearray(n)` or `b'\x00' * n`. */
  function Zeros(n: nat): (r: seq<byte>)
    ensures |r| == n
    ensures forall i :: 0 <= i < n ==> r[i] == 0
  {
    seq(n, i => 0)
  }

  /** The unsigned 16-bit value whose little-endian bytes are `lo`, `hi` (`lo | hi << 8`). */
  function U16LE(lo: byte, hi: byte): (v: nat)
    ensures v < 0x1_0000
    ensures v % 256 == lo && v / 256 == hi
  {
    lo + 256 * hi
  }

  /** `struct.pack('<H', v)` for a value it accepts. */
  function PackU16LE(v: nat): (r: seq<byte>)
    requires v < 0x1_0000
    ensures |r| == 2 && U16LE(r[0], r[1]) == v
  {
    [v % 256, v / 256]
  }

  /** `struct.pack('>H', v)` for a value it accepts. */
  function PackU16BE(v: nat): (r: seq<byte>)
    requires v < 0x1_0000
    ensures |r| == 2 && 256 * (r[0] as int) + r[1] == v
  {
    [v / 256, v % 256]
  }

  /** The unsigned 32-bit value of four little-endian bytes. */
  function U32LE(s: seq<byte>): nat
    requires |s| == 4
  {
    U16LE(s[0], s[1]) + 0x1_0000 * U16LE(s[2], s[3])
  }

  /** `struct.pack('<I', v)` for a value it accepts. */
  function PackU32LE(v: nat): (r: seq<byte>)
    requires v < 0x1_0000_0000
    ensures |r| == 4 && U32LE(r) == v
  {
    PackU16LE(v % 0x1_0000) + PackU16LE(v / 0x1_0000)
  }

  /** `struct.pack('<i', v)`: two's complement in four little-endian bytes. */
  function PackI32LE(v: int): (r: seq<byte>)
    requires -0x8000_0000 <= v < 0x8000_0000
    ensures |r| == 4
    ensures U32LE(r) == if v >= 0 then v else v + 0x1_0000_0000
  {
    PackU32LE(if v >= 0 then v else v + 0x1_0000_0000)
  }

  /** `struct.pack('<Q', v)` for a value it accepts. */
  function PackU64LE(v: nat): (r: seq<byte>)
    requires v < 0x1_0000_0000_0000_0000
    ensures |r| == 8 && U32LE(r[..4]) + 0x1_0000_0000 * U32LE(r[4..]) == v
  {
    PackU32LE(v % 0x1_0000_0000) + PackU32LE(v / 0x1_0000_0000)
  }

  /** Zero packs to eight zero bytes. */
  lemma PackU64LEZero()
    ensures PackU64LE(0) == Zeros(8)
  {
    assert 0 % 0x1_0000_0000 == 0 && 0 / 0x1_0000_0000 == 0;
    assert 0 % 0x1_0000 == 0 && 0 / 0x1_0000 == 0 && 0 % 256 == 0 && 0 / 256 == 0;
    var w := PackU32LE(0);
    assert forall i :: 0 <= i < 4 ==> w[i] == 0;
    var r := PackU64LE(0);
    assert r == w + w;
    assert forall i :: 0 <= i < 8 ==> r[i] == Zeros(8)[i];
  }

  // Products the layouts need; the solver does not find them unaided.

  lemma {:induction false} MulSucc(a: nat, b: nat)
    ensures (a + 1) * b == a * b + b
  {
  }

  lemma {:induction false} MulMono(a: nat, b: nat, c: nat)
    requires a <= b
    ensures a * c <= b * c
  {
    assert b * c == a * c + (b - a) * c;
  }
}
