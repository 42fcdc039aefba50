/**
 * Little-endian integer fields and the DataView / Uint8Array writes both the
 * chunk transport and the frame codec use to fill their message buffers.
 */
module ByteBuffers {
  import opened Types

  /** `DataView.setUint16(off, v, true)`: the value is reduced modulo 2^16, low byte first. */
  function U16LE(v: nat): (r: Bytes)
    ensures |r| == 2
  {
    var w := v % 0x1_0000;
    [w % 256, w / 256]
  }

  /** `DataView.setUint32(off, v, true)`: the value is reduced modulo 2^32, low byte first. */
  function U32LE(v: nat): (r: Bytes)
    ensures |r| == 4
  {
    var w := v % 0x1_0000_0000;
    var q1 := w / 256;
    var q2 := q1 / 256;
    [w % 256, q1 % 256, q2 % 256, q2 / 256]
  }

  /** `DataView.getUint16(off, true)`. */
  function ReadU16LE(s: Bytes, off: nat): (v: nat)
    requires off + 2 <= |s|
    ensures v < 0x1_0000
  {
    s[off] as int + 256 * s[off + 1] as int
  }

  /** `DataView.getUint32(off, true)`. */
  function ReadU32LE(s: Bytes, off: nat): (v: nat)
    requires off + 4 <= |s|
    ensures v < 0x1_0000_0000
  {
    s[off] as int + 256 * s[off + 1] as int + 0x1_0000 * s[off + 2] as int
      + 0x100_0000 * s[off + 3] as int
  }

  /** Reading back a written u16 field yields the value modulo 2^16. */
  lemma ReadU16LEOfU16LE(v: nat, s: Bytes, off: nat)
    requires off + 2 <= |s| && s[off..off + 2] == U16LE(v)
    ensures ReadU16LE(s, off) == v % 0x1_0000
  {
    assert s[off] == s[off..off + 2][0] && s[off + 1] == s[off..off + 2][1];
  }

  /** Reading back a written u32 field yields the value modulo 2^32. */
  lemma ReadU32LEOfU32LE(v: nat, s: Bytes, off: nat)
    requires off + 4 <= |s| && s[off..off + 4] == U32LE(v)
    ensures ReadU32LE(s, off) == v % 0x1_0000_0000
  {
    var f := s[off..off + 4];
    assert s[off] == f[0] && s[off + 1] == f[1] && s[off + 2] == f[2] && s[off + 3] == f[3];
    var w := v % 0x1_0000_0000;
    var q1 := w / 256;
    var q2 := q1 / 256;
    assert w == w % 256 + 256 * q1;
    assert q1 == q1 % 256 + 256 * q2;
    assert q2 == q2 % 256 + 256 * (q2 / 256);
  }

  /** `new Uint8Array(buf).set(src, off)`: copies `src` into the buffer at `off`. */
  method SetBytes(a: array<byte>, off: nat, src: Bytes)
    requires off + |src| <= a.Length
    modifies a
    ensures a[..] == old(a[..])[..off] + src + old(a[..])[off + |src|..]
  {
    var i := 0;
    while i < |src|
      invariant 0 <= i <= |src|
      invariant forall k :: 0 <= k < a.Length ==>
        a[k] == (if off <= k < off + i then src[k - off] else old(a[k]))
    {
      a[off + i] := src[i];
      i := i + 1;
    }
    assert a[..] == old(a[..])[..off] + src + old(a[..])[off + |src|..];
  }

  /** `DataView.setUint16(off, v, true)` on the buffer. */
  method SetUint16(a: array<byte>, off: nat, v: nat)
    requires off + 2 <= a.Length
    modifies a
    ensures a[..] == old(a[..])[..off] + U16LE(v) + old(a[..])[off + 2..]
  {
    SetBytes(a, off, U16LE(v));
  }

  /** `DataView.setUint32(off, v, true)` on the buffer. */
  method SetUint32(a: array<byte>, off: nat, v: nat)
    requires off + 4 <= a.Length
    modifies a
    ensures a[..] == old(a[..])[..off] + U32LE(v) + old(a[..])[off + 4..]
  {
    SetBytes(a, off, U32LE(v));
  }
}
