/** Bytes, little-endian integers and the 64-bit machine arithmetic of the Go code. */
module Bytes {

  type Byte = b: int | 0 <= b < 256

  const TWO_32 := 0x1_0000_0000
  const TWO_63 := 0x8000_0000_0000_0000
  const TWO_64 := 0x1_0000_0000_0000_0000

  /** Reduction of an exact result to `uint64`. */
  function U64(x: int): (r: nat)
    ensures r < TWO_64
  {
    x % TWO_64
  }

  /** Reduction of an exact result to `int64` (two's complement). */
  function I64(x: int): (r: int)
    ensures -TWO_63 <= r < TWO_63
  {
    var u := x % TWO_64;
    if u < TWO_63 then u else u - TWO_64
  }

  function Pow256(w: nat): (r: nat)
    ensures r > 0
  {
    if w == 0 then 1 else 256 * Pow256(w - 1)
  }

  lemma Pow256Values()
    ensures Pow256(1) == 256 && Pow256(2) == 65_536
    ensures Pow256(3) == 0x100_0000 && Pow256(4) == TWO_32 && Pow256(8) == TWO_64
  {
    assert Pow256(2) == 65536;
    assert Pow256(4) == 65536 * 65536;
    assert Pow256(6) == 65536 * 65536 * 65536;
  }

  /** The value of a little-endian byte string. */
  function LittleEndian(s: seq<Byte>): (v: nat)
  {
    if s == [] then 0 else s[0] + 256 * LittleEndian(s[1..])
  }

  /** The `w` low bytes of `v`, least significant first. */
  function ToLittleEndian(v: nat, w: nat): (s: seq<Byte>)
    ensures |s| == w
  {
    if w == 0 then [] else [v % 256] + ToLittleEndian(v / 256, w - 1)
  }

  lemma {:induction false} LittleEndianBound(s: seq<Byte>)
    ensures LittleEndian(s) < Pow256(|s|)
  {
    if s != [] {
      LittleEndianBound(s[1..]);
    }
  }

  /** Decoding undoes encoding for every value that fits in `w` bytes. */
  lemma {:induction false} DecodeEncode(v: nat, w: nat)
    requires v < Pow256(w)
    ensures LittleEndian(ToLittleEndian(v, w)) == v
  {
    if w != 0 {
      DecodeEncode(v / 256, w - 1);
      assert ToLittleEndian(v, w)[1..] == ToLittleEndian(v / 256, w - 1);
    }
  }

  /** Encoding undoes decoding for every byte string. */
  lemma {:induction false} EncodeDecode(s: seq<Byte>)
    ensures ToLittleEndian(LittleEndian(s), |s|) == s
  {
    if s != [] {
      EncodeDecode(s[1..]);
    }
  }
}
