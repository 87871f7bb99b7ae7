/**
 * Fixed-width integers of the AVR firmware and the C++ host, the additive
 * frame checksum both sides compute, and an Option type.
 */
module Bytes {

  /** An `uint8_t` / `unsigned char`. */
  type byte = x: int | 0 <= x < 0x100

  /** An `uint16_t`. */
  type uint16 = x: int | 0 <= x < 0x1_0000

  /** An `unsigned int` of the host (32 bits). */
  type uint32 = x: int | 0 <= x < 0x1_0000_0000

  datatype Option<T> = None | Some(value: T)

  /** The sum of all bytes, as an unbounded integer. */
  function Sum(s: seq<byte>): nat
  {
    if s == [] then 0 else Sum(s[..|s| - 1]) + s[|s| - 1]
  }

  /** The frame checksum: the sum of the bytes, wrapped at 256. */
  function Checksum(s: seq<byte>): byte
  {
    Sum(s) % 0x100
  }

  /** The high byte of a 16-bit value, `(v >> 8) & 0xFF`. */
  function High(v: uint16): byte
  {
    v / 0x100
  }

  /** The low byte of a 16-bit value, `v & 0xFF`. */
  function Low(v: uint16): byte
  {
    v % 0x100
  }

  lemma HighLowJoin(v: uint16)
    ensures High(v) * 0x100 + Low(v) == v
  {
  }

  lemma {:induction false} SumAppend(a: seq<byte>, b: seq<byte>)
    ensures Sum(a + b) == Sum(a) + Sum(b)
    decreases |b|
  {
    if b == [] {
      assert a + b == a;
    } else {
      var b' := b[..|b| - 1];
      assert (a + b)[..|a + b| - 1] == a + b';
      SumAppend(a, b');
    }
  }

  /** Sum of a one-, two- or three-byte sequence, spelled out. */
  lemma SumSmall(x: byte, y: byte, z: byte)
    ensures Sum([x]) == x
    ensures Sum([x, y]) == x + y
    ensures Sum([x, y, z]) == x + y + z
  {
    assert [x, y][..1] == [x];
    assert [x, y, z][..2] == [x, y];
  }

  /** Replacing one byte changes the sum by exactly the difference. */
  lemma {:induction false} SumUpdate(s: seq<byte>, k: nat, v: byte)
    requires k < |s|
    ensures Sum(s[k := v]) == Sum(s) - s[k] + v
    decreases |s|
  {
    var n := |s| - 1;
    if k == n {
      assert s[k := v][..n] == s[..n];
    } else {
      assert s[k := v][..n] == s[..n][k := v];
      SumUpdate(s[..n], k, v);
    }
  }

  /** Adding the next byte to a running 8-bit checksum. */
  lemma ChecksumStep(s: seq<byte>, x: byte)
    ensures Checksum(s + [x]) == (Checksum(s) + x) % 0x100
  {
    assert (s + [x])[..|s|] == s;
  }
}
