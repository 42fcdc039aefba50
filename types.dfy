/**
 * The vocabulary shared by the client: encoder settings and their lookup
 * tables, and the EncodedFrameData record that travels over the data channel
 * (client/src/types/index.ts).
 */
module Types {

  /** One octet of an ArrayBuffer. */
  type byte = x: int | 0 <= x < 256

  type Bytes = seq<byte>

  datatype Option<T> = None | Some(value: T)

  function Min(a: int, b: int): int { if a <= b then a else b }

  // ---------------------------------------------------------------------
  // Encoder settings and the constant tables
  // ---------------------------------------------------------------------

  datatype CodecType = H264 | Hevc | Vp8 | Vp9 | Av1

  datatype ResolutionPreset = P720 | P1080 | P1440 | Original

  /** The framerate presets offered to the user: 15, 30 or 60 frames per second. */
  type FrameratePreset = f: nat | f == 15 || f == 30 || f == 60 witness 30

  /** `bitrate` is in Mbit/s, as the settings form stores it. */
  datatype EncoderSettings = EncoderSettings(
    codec: CodecType,
    resolution: ResolutionPreset,
    framerate: FrameratePreset,
    bitrate: nat)

  datatype Resolution = Resolution(width: nat, height: nat)

  /** RESOLUTION_MAP: every preset but `original` names a 16:9 size; `original` keeps the capture size. */
  function ResolutionMap(p: ResolutionPreset): (r: Option<Resolution>)
    ensures r.None? <==> p == Original
    ensures r.Some? ==> 9 * r.value.width == 16 * r.value.height
    ensures p == P720 ==> r.Some? && r.value.height == 720
    ensures p == P1080 ==> r.Some? && r.value.height == 1080
    ensures p == P1440 ==> r.Some? && r.value.height == 1440
  {
    match p
    case P720 => Some(Resolution(1280, 720))
    case P1080 => Some(Resolution(1920, 1080))
    case P1440 => Some(Resolution(2560, 1440))
    case Original => None
  }

  predicate IsAscii(s: string)
  {
    forall i :: 0 <= i < |s| ==> s[i] < 128 as char
  }

  /** CODEC_MAP: the WebCodecs codec string configured for each codec choice. */
  function CodecString(c: CodecType): (s: string)
    ensures |s| > 0 && IsAscii(s)
  {
    match c
    case H264 => "avc1.640028"
    case Hevc => "hvc1.1.6.L120.90"
    case Vp8 => "vp8"
    case Vp9 => "vp09.00.10.08"
    case Av1 => "av01.0.04M.08"
  }

  /** No two codec choices share a codec string, so a receiver can tell them apart. */
  lemma CodecStringInjective(a: CodecType, b: CodecType)
    requires CodecString(a) == CodecString(b)
    ensures a == b
  {
  }

  const DefaultEncoderSettings: EncoderSettings := EncoderSettings(H264, P1080, 30, 4)

  // ---------------------------------------------------------------------
  // UTF-8 (TextEncoder) for the codec string
  // ---------------------------------------------------------------------

  /** The UTF-8 encoding of one Unicode scalar value. */
  function Utf8Char(c: char): (r: Bytes)
    ensures 1 <= |r| <= 4
    ensures (c as int < 128) <==> (|r| == 1 && r[0] == c as int)
  {
    var v := c as int;
    if v < 0x80 then [v]
    else if v < 0x800 then [0xC0 + v / 64, 0x80 + v % 64]
    else if v < 0x1_0000 then [0xE0 + v / 4096, 0x80 + (v / 64) % 64, 0x80 + v % 64]
    else [0xF0 + v / 262144, 0x80 + (v / 4096) % 64, 0x80 + (v / 64) % 64, 0x80 + v % 64]
  }

  /** What `new TextEncoder().encode(s)` produces. */
  function Utf8Encode(s: string): (r: Bytes)
    ensures |s| <= |r| <= 4 * |s|
    ensures IsAscii(s) ==> |r| == |s| && forall i :: 0 <= i < |s| ==> r[i] == s[i] as int
  {
    if s == [] then [] else Utf8Char(s[0]) + Utf8Encode(s[1..])
  }

  // ---------------------------------------------------------------------
  // EncodedFrameData
  // ---------------------------------------------------------------------

  /**
   * A JS number as the IEEE-754 binary64 bit pattern that
   * `DataView.setFloat64(offset, x, true)` writes: eight bytes, least
   * significant first. The arithmetic meaning of the pattern is not modelled.
   */
  type Float64Bits = s: Bytes | |s| == 8 witness [0, 0, 0, 0, 0, 0, 0, 0]

  const PositiveZero: Float64Bits := [0, 0, 0, 0, 0, 0, 0, 0]

  /** JS truthiness of a number: +0, -0 and NaN are falsy, every other value is truthy. */
  predicate IsFalsy(b: Float64Bits)
  {
    var exponentZero := b[7] % 128 == 0 && b[6] < 16;
    var exponentOnes := b[7] % 128 == 127 && b[6] >= 240;
    var mantissaZero := b[6] % 16 == 0 && b[5] == 0 && b[4] == 0 && b[3] == 0
                        && b[2] == 0 && b[1] == 0 && b[0] == 0;
    (exponentZero && mantissaZero) || (exponentOnes && !mantissaZero)
  }

  datatype FrameType = Video | Audio | Config

  /**
   * EncodedFrameData. `codec` is the codec string already encoded as UTF-8;
   * `width`/`height` are the coded dimensions of a config frame.
   */
  datatype EncodedFrame = EncodedFrame(
    frameType: FrameType,
    timestamp: Float64Bits,
    duration: Option<Float64Bits>,
    data: Bytes,
    isKeyFrame: Option<bool>,
    codec: Option<Bytes>,
    width: Option<nat>,
    height: Option<nat>)

  /** The state reported to the UI for the peer connections. */
  datatype ConnectionState = Disconnected | Connecting | Connected | Failed
}
