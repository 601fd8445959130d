/** Byte strings and big-endian integers (encoding/binary's BigEndian). */
module Bytes {
  import opened Words

  type byte = uint8
  type Bytes = seq<byte>

  datatype Option<+T> = None | Some(value: T)

  datatype Result<+T, +E> = Ok(value: T) | Err(error: E)

  function Pow256(k: nat): (r: nat)
    ensures r > 0
  {
    if k == 0 then 1 else 256 * Pow256(k - 1)
  }

  /** The `width` low bytes of n, most significant first. */
  function BigEndian(n: nat, width: nat): (b: Bytes)
    ensures |b| == width
  {
    if width == 0 then [] else BigEndian(n / 256, width - 1) + [n % 256]
  }

  /** The number a big-endian byte string stands for. */
  function Value(b: Bytes): (n: nat)
    ensures n < Pow256(|b|)
  {
    if b == [] then 0 else 256 * Value(b[..|b| - 1]) + b[|b| - 1]
  }

  lemma Widths()
    ensures Pow256(2) == 0x1_0000 && Pow256(4) == TWO_32 && Pow256(8) == TWO_64
  {
    assert Pow256(2) == 0x1_0000;
    assert Pow256(4) == TWO_32;
    assert Pow256(6) == 0x1_0000_0000_0000;
  }

  lemma {:induction false} ValueOfBigEndian(n: nat, width: nat)
    requires n < Pow256(width)
    ensures Value(BigEndian(n, width)) == n
  {
    if width == 0 {
    } else {
      var b := BigEndian(n, width);
      assert b[..width - 1] == BigEndian(n / 256, width - 1);
      ValueOfBigEndian(n / 256, width - 1);
    }
  }

  lemma {:induction false} BigEndianOfValue(b: Bytes)
    ensures BigEndian(Value(b), |b|) == b
  {
    if b == [] {
    } else {
      BigEndianOfValue(b[..|b| - 1]);
    }
  }

  /** Equal-width encodings of in-range numbers are equal only for equal numbers. */
  lemma BigEndianInjective(m: nat, n: nat, width: nat)
    requires m < Pow256(width) && n < Pow256(width)
    requires BigEndian(m, width) == BigEndian(n, width)
    ensures m == n
  {
    ValueOfBigEndian(m, width);
    ValueOfBigEndian(n, width);
  }

  // The three widths the protocol uses.

  function BE16(n: uint16): (b: Bytes) ensures |b| == 2 { BigEndian(n, 2) }
  function BE32(n: uint32): (b: Bytes) ensures |b| == 4 { BigEndian(n, 4) }
  function BE64(n: uint64): (b: Bytes) ensures |b| == 8 { BigEndian(n, 8) }

  function Uint16(b: Bytes): (n: uint16) requires |b| == 2 { Widths(); Value(b) }
  function Uint32(b: Bytes): (n: uint32) requires |b| == 4 { Widths(); Value(b) }
  function Uint64(b: Bytes): (n: uint64) requires |b| == 8 { Widths(); Value(b) }

  lemma RoundTrip16(n: uint16)
    ensures Uint16(BE16(n)) == n
  {
    Widths();
    ValueOfBigEndian(n, 2);
  }

  lemma RoundTrip32(n: uint32)
    ensures Uint32(BE32(n)) == n
  {
    Widths();
    ValueOfBigEndian(n, 4);
  }

  lemma RoundTrip64(n: uint64)
    ensures Uint64(BE64(n)) == n
  {
    Widths();
    ValueOfBigEndian(n, 8);
  }
}
