/**
 * Class tags, data tags and status bytes of the wire protocol, and the
 * host's checksum test `isChecksumOk` (framework/src/tags.cpp).
 */
module Tags {
  import opened Bytes

  // class tags
  const CT_MISC: byte := 0x01
  const CT_GPIO: byte := 0x02
  const CT_ANALOG: byte := 0x03
  const CT_I2C: byte := 0x04
  const CT_SERVO: byte := 0x05
  const CT_COUNTER: byte := 0x06

  // data tags, local to their class
  const DT_MISC_RESET: byte := 0x01
  const DT_MISC_ID: byte := 0x02
  const DT_MISC_TEMP: byte := 0x03
  const DT_GPIO_CONFIG: byte := 0x01
  const DT_GPIO_READ: byte := 0x02
  const DT_GPIO_WRITE: byte := 0x03
  const DT_ANALOG_READ: byte := 0x02
  const DT_ANALOG_READ_ALL: byte := 0x03
  const DT_I2C_CONFIG: byte := 0x01
  const DT_I2C_READ: byte := 0x02
  const DT_I2C_WRITE: byte := 0x03
  const DT_SERVO_CONFIG: byte := 0x01
  const DT_SERVO_SET: byte := 0x02
  const DT_COUNTER_CONFIG: byte := 0x01
  const DT_COUNTER_READ: byte := 0x02

  // status byte of every reply
  const NOK: byte := 0
  const OK: byte := 1

  /** The last byte of `m` is the checksum of all bytes before it. */
  predicate ChecksumOk(m: seq<byte>)
    requires |m| >= 1
  {
    m[|m| - 1] == Checksum(m[..|m| - 1])
  }

  /**
   * `isChecksumOk(pMsg, length)`: sums the first `length - 1` bytes in an
   * 8-bit accumulator and compares the sum with byte `length - 1`. The
   * message must hold at least `length >= 1` bytes, since that byte is read.
   */
  method IsChecksumOk(m: seq<byte>, length: int) returns (ok: bool)
    requires 1 <= length <= |m|
    ensures ok <==> ChecksumOk(m[..length])
  {
    var cs: byte := 0;
    var i := 0;
    while i < length - 1
      invariant 0 <= i <= length - 1
      invariant cs == Checksum(m[..i])
    {
      ChecksumStep(m[..i], m[i]);
      assert m[..i + 1] == m[..i] + [m[i]];
      cs := (cs + m[i]) % 0x100;
      i := i + 1;
    }
    assert m[..length][..length - 1] == m[..length - 1];
    ok := cs == m[length - 1];
  }

  /** Appending the checksum of any byte sequence makes a frame that passes. */
  lemma ChecksumAppended(b: seq<byte>)
    ensures ChecksumOk(b + [Checksum(b)])
  {
    assert (b + [Checksum(b)])[..|b|] == b;
  }

  /**
   * Adding a nonzero amount (mod 256) to any single byte of a frame that
   * passes, the checksum byte included, makes it fail.
   */
  lemma CorruptionDetected(m: seq<byte>, k: nat, d: int)
    requires |m| >= 1 && ChecksumOk(m)
    requires k < |m| && d % 0x100 != 0
    ensures !ChecksumOk(m[k := (m[k] + d) % 0x100])
  {
    var n := |m| - 1;
    var m' := m[k := (m[k] + d) % 0x100];
    if k == n {
      assert m'[..n] == m[..n];
    } else {
      assert m'[..n] == m[..n][k := (m[k] + d) % 0x100];
      SumUpdate(m[..n], k, (m[k] + d) % 0x100);
    }
  }

  /** A frame: class tag, data tag, body, and the checksum of all of them. */
  function Frame(ct: byte, dt: byte, body: seq<byte>): (f: seq<byte>)
    ensures |f| == |body| + 3 && f[0] == ct && f[1] == dt && f[2..|f| - 1] == body
    ensures ChecksumOk(f)
  {
    ChecksumAppended([ct, dt] + body);
    [ct, dt] + body + [Checksum([ct, dt] + body)]
  }

  /** A frame whose body is one, two or three bytes, with its checksum spelled out. */
  lemma FrameSmall(ct: byte, dt: byte, x: byte, y: byte, z: byte)
    ensures Frame(ct, dt, [x]) == [ct, dt, x, (ct + dt + x) % 0x100]
    ensures Frame(ct, dt, [x, y]) == [ct, dt, x, y, (ct + dt + x + y) % 0x100]
    ensures Frame(ct, dt, [x, y, z]) == [ct, dt, x, y, z, (ct + dt + x + y + z) % 0x100]
  {
    SumSmall(ct, dt, x);
    assert [ct, dt] + [x] == [ct, dt, x];
    assert [ct, dt] + [x, y] == [ct, dt, x] + [y];
    SumAppend([ct, dt, x], [y]);
    assert [ct, dt] + [x, y, z] == [ct, dt, x] + [y, z];
    SumAppend([ct, dt, x], [y, z]);
    SumSmall(y, z, z);
  }

  /** A frame passes exactly when its last byte is the checksum of the rest. */
  lemma ChecksumOkLast(body: seq<byte>, c: byte)
    ensures ChecksumOk(body + [c]) <==> c == Checksum(body)
  {
    assert (body + [c])[..|body|] == body;
  }

  /**
   * The checksum loop both sides run over a buffer they assemble (the
   * firmware's replies, the host's I2C write request): cell `n` becomes the
   * 8-bit sum of the `n` cells before it, and no other cell changes.
   */
  method SealFrame(a: array<byte>, n: nat)
    requires n < a.Length
    modifies a
    ensures a[..n] == old(a[..n]) && a[n] == Checksum(a[..n])
    ensures forall k :: n < k < a.Length ==> a[k] == old(a[k])
  {
    ghost var head := a[..n];
    a[n] := 0;
    var i := 0;
    while i < n
      invariant 0 <= i <= n
      invariant a[..n] == head
      invariant a[n] == Checksum(head[..i])
      invariant forall k :: n < k < a.Length ==> a[k] == old(a[k])
    {
      ChecksumStep(head[..i], head[i]);
      assert head[..i + 1] == head[..i] + [head[i]];
      a[n] := (a[n] as int + a[i]) % 0x100;
      i := i + 1;
    }
    assert head[..n] == head;
  }
}
