/** Little-endian encoding of unsigned integers over byte sequences, the
    two's-complement view of a 64-bit word, and the named readers
    `read_u16_le`, `read_u32_le`, `read_u64_le` and `read_i64_le`. */
module LittleEndian {
  import opened Common

  /** 256 to the power n: one more than the largest n-byte value. */
  function Pow256(n: nat): (p: nat)
    ensures p >= 1
  {
    if n == 0 then 1 else 0x100 * Pow256(n - 1)
  }

  lemma Pow256Values()
    ensures Pow256(1) == 0x100
    ensures Pow256(2) == 0x1_0000
    ensures Pow256(4) == 0x1_0000_0000
    ensures Pow256(8) == 0x1_0000_0000_0000_0000
  {
    assert Pow256(1) == 0x100;
    assert Pow256(2) == 0x1_0000;
    assert Pow256(3) == 0x100_0000;
    assert Pow256(4) == 0x1_0000_0000;
    assert Pow256(5) == 0x100_0000_0000;
    assert Pow256(6) == 0x1_0000_0000_0000;
    assert Pow256(7) == 0x100_0000_0000_0000;
  }

  /** The unsigned value of the bytes of s, read least significant
      byte first. */
  function FromLE(s: seq<byte>): (v: nat)
    ensures v < Pow256(|s|)
  {
    if |s| == 0 then 0 else s[0] + 0x100 * FromLE(s[1..])
  }

  /** The n bytes of v, least significant first. */
  function ToLE(v: nat, n: nat): (s: seq<byte>)
    requires v < Pow256(n)
    ensures |s| == n
  {
    if n == 0 then [] else [v % 0x100] + ToLE(v / 0x100, n - 1)
  }

  /** Reading back what was written yields the value. */
  lemma {:induction false} FromToLE(v: nat, n: nat)
    requires v < Pow256(n)
    ensures FromLE(ToLE(v, n)) == v
  {
    if n > 0 {
      var t := ToLE(v, n);
      FromToLE(v / 0x100, n - 1);
      assert t[1..] == ToLE(v / 0x100, n - 1);
    }
  }

  /** Writing back what was read yields the bytes. */
  lemma {:induction false} ToFromLE(s: seq<byte>)
    ensures ToLE(FromLE(s), |s|) == s
  {
    if |s| > 0 {
      ToFromLE(s[1..]);
      var v := FromLE(s);
      assert v % 0x100 == s[0];
      assert v / 0x100 == FromLE(s[1..]);
      assert s == [s[0]] + s[1..];
    }
  }

  /** Two byte strings of the same width with the same value are equal. */
  lemma FromLEInjective(a: seq<byte>, b: seq<byte>)
    requires |a| == |b| && FromLE(a) == FromLE(b)
    ensures a == b
  {
    ToFromLE(a);
    ToFromLE(b);
  }

  /** Two strings agreeing on [i, j) and on [j, k) agree on [i, k). */
  lemma Glue(a: seq<byte>, b: seq<byte>, i: nat, j: nat, k: nat)
    requires i <= j <= k && k <= |a| && k <= |b|
    requires a[i..j] == b[i..j] && a[j..k] == b[j..k]
    ensures a[i..k] == b[i..k]
  {
    assert a[i..k] == a[i..j] + a[j..k];
    assert b[i..k] == b[i..j] + b[j..k];
  }

  /** The signed reading of a 64-bit word (`int64_t` over the same bits). */
  function ToSigned64(w: u64): (x: i64)
    ensures FromSigned64(x) == w
  {
    if w < 0x8000_0000_0000_0000 then w else w - 0x1_0000_0000_0000_0000
  }

  /** The bits of a signed 64-bit value, read as unsigned. */
  function FromSigned64(x: i64): (w: u64)
    ensures (w - x) % 0x1_0000_0000_0000_0000 == 0
  {
    if x >= 0 then x else x + 0x1_0000_0000_0000_0000
  }

  lemma SignedRoundTrip(x: i64)
    ensures ToSigned64(FromSigned64(x)) == x
  {
  }

  /** `read_u16_le`: the value of the 2 bytes at pos, least significant
      first; `ReadU16Bytes` states that it consumes exactly those bytes. */
  function ReadU16(data: seq<byte>, pos: nat): u16
    requires pos + 2 <= |data|
  {
    var v := FromLE(data[pos..pos + 2]);
    assert v < 0x1_0000 by { Pow256Values(); }
    v
  }

  /** `read_u32_le`: the value of the 4 bytes at pos. */
  function ReadU32(data: seq<byte>, pos: nat): u32
    requires pos + 4 <= |data|
  {
    var v := FromLE(data[pos..pos + 4]);
    assert v < 0x1_0000_0000 by { Pow256Values(); }
    v
  }

  /** `read_u64_le`: the value of the 8 bytes at pos. */
  function ReadU64(data: seq<byte>, pos: nat): u64
    requires pos + 8 <= |data|
  {
    var v := FromLE(data[pos..pos + 8]);
    assert v < 0x1_0000_0000_0000_0000 by { Pow256Values(); }
    v
  }

  /** `read_i64_le`: the 8 bytes at pos as a two's-complement value. */
  function ReadI64(data: seq<byte>, pos: nat): i64
    requires pos + 8 <= |data|
  {
    ToSigned64(ReadU64(data, pos))
  }

  /** Each reader consumes exactly its 2, 4 or 8 bytes at pos: writing the
      value back little-endian gives exactly those bytes. */
  lemma ReadU16Bytes(data: seq<byte>, pos: nat)
    requires pos + 2 <= |data|
    ensures ReadU16(data, pos) < Pow256(2) && ToLE(ReadU16(data, pos), 2) == data[pos..pos + 2]
  {
    ToFromLE(data[pos..pos + 2]);
  }

  lemma ReadU32Bytes(data: seq<byte>, pos: nat)
    requires pos + 4 <= |data|
    ensures ReadU32(data, pos) < Pow256(4) && ToLE(ReadU32(data, pos), 4) == data[pos..pos + 4]
  {
    ToFromLE(data[pos..pos + 4]);
  }

  lemma ReadU64Bytes(data: seq<byte>, pos: nat)
    requires pos + 8 <= |data|
    ensures ReadU64(data, pos) < Pow256(8) && ToLE(ReadU64(data, pos), 8) == data[pos..pos + 8]
  {
    ToFromLE(data[pos..pos + 8]);
  }

  lemma ReadI64Bytes(data: seq<byte>, pos: nat)
    requires pos + 8 <= |data|
    ensures FromSigned64(ReadI64(data, pos)) < Pow256(8)
    ensures ToLE(FromSigned64(ReadI64(data, pos)), 8) == data[pos..pos + 8]
  {
    ReadU64Bytes(data, pos);
  }
}
