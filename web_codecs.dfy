/**
 * The frame codec and the encode/decode control of the screen sharer
 * (client/src/composables/useWebCodecs.ts): the 32-byte frame header, the
 * keyframe cadence of the read loop, the encoder output handler that replays
 * a cached config frame before every key chunk, and the decoder's gating of
 * config and video frames. The WebCodecs objects are reduced to flags, an
 * input queue size and lists of what was submitted and emitted.
 */
module WebCodecs {
  import opened Types
  import opened ByteBuffers

  // ---------------------------------------------------------------------
  // The wire format of EncodedFrameData
  // ---------------------------------------------------------------------

  const HeaderSize: nat := 32

  /** Offset 0: video 0, audio 1, config 2. */
  function TypeTag(t: FrameType): nat
  {
    match t
    case Video => 0
    case Audio => 1
    case Config => 2
  }

  /** `duration ?? 0`: an absent duration is written as +0. */
  function DurationBits(f: EncodedFrame): Float64Bits
  {
    if f.duration.Some? then f.duration.value else PositiveZero
  }

  /** Offset 20: 1 for a keyframe, 0 otherwise (also when the flag is absent). */
  function Flags(f: EncodedFrame): nat
  {
    if f.isKeyFrame == Some(true) then 1 else 0
  }

  /** The UTF-8 codec string, empty when absent. */
  function CodecBytes(f: EncodedFrame): Bytes
  {
    if f.codec.Some? then f.codec.value else []
  }

  /** `width ?? 0` / `height ?? 0`. */
  function DimOrZero(d: Option<nat>): nat
  {
    if d.Some? then d.value else 0
  }

  function Header(f: EncodedFrame): (h: Bytes)
    ensures |h| == HeaderSize
  {
    U32LE(TypeTag(f.frameType)) + f.timestamp + DurationBits(f) + U32LE(Flags(f))
      + U32LE(|CodecBytes(f)|) + U16LE(DimOrZero(f.width)) + U16LE(DimOrZero(f.height))
  }

  /** `serializeFrame`: header, codec bytes, payload. */
  function Wire(f: EncodedFrame): Bytes
  {
    Header(f) + CodecBytes(f) + f.data
  }

  /** The codec length must fit its u32 field for the frame to read back. */
  predicate Serializable(f: EncodedFrame)
  {
    |CodecBytes(f)| < 0x1_0000_0000
  }

  /** A dimension as read back: 0 means absent. */
  function DimFromWire(v: nat): Option<nat>
  {
    if v == 0 then None else Some(v)
  }

  /**
   * `deserializeFrame`. The codec and payload slices clamp to the buffer:
   * a codec length past the end yields a shorter codec and no payload.
   * Falsy numbers (+0, -0, NaN duration; 0 width or height) and the empty
   * codec come back absent; any type tag but 0 and 1 reads as config.
   */
  function DeserializeFrame(buf: Bytes): (f: EncodedFrame)
    requires |buf| >= HeaderSize
    ensures f.timestamp == buf[4..12]
    ensures f.isKeyFrame == Some(ReadU32LE(buf, 20) == 1)
    ensures f.duration.None? <==> IsFalsy(buf[12..20])
    ensures f.duration.Some? ==> f.duration.value == buf[12..20]
    ensures CodecBytes(f) + f.data == buf[HeaderSize..]
    ensures |CodecBytes(f)| == Min(ReadU32LE(buf, 24), |buf| - HeaderSize)
    ensures f.codec.None? <==> ReadU32LE(buf, 24) == 0 || |buf| == HeaderSize
    ensures f.width.None? <==> ReadU16LE(buf, 28) == 0
    ensures f.width.Some? ==> f.width.value == ReadU16LE(buf, 28)
    ensures f.height.None? <==> ReadU16LE(buf, 30) == 0
    ensures f.height.Some? ==> f.height.value == ReadU16LE(buf, 30)
  {
    var tag := ReadU32LE(buf, 0);
    var duration: Float64Bits := buf[12..20];
    var codecEnd := Min(HeaderSize + ReadU32LE(buf, 24), |buf|);
    var codec := buf[HeaderSize..codecEnd];
    EncodedFrame(
      if tag == 0 then Video else if tag == 1 then Audio else Config,
      buf[4..12],
      if IsFalsy(duration) then None else Some(duration),
      buf[codecEnd..],
      Some(ReadU32LE(buf, 20) == 1),
      if |codec| == 0 then None else Some(codec),
      DimFromWire(ReadU16LE(buf, 28)),
      DimFromWire(ReadU16LE(buf, 30)))
  }

  /** What a frame looks like after a trip over the wire. */
  function Normalize(f: EncodedFrame): EncodedFrame
  {
    EncodedFrame(
      f.frameType,
      f.timestamp,
      if f.duration.Some? && !IsFalsy(f.duration.value) then f.duration else None,
      f.data,
      Some(f.isKeyFrame == Some(true)),
      if |CodecBytes(f)| == 0 then None else f.codec,
      DimFromWire(DimOrZero(f.width) % 0x1_0000),
      DimFromWire(DimOrZero(f.height) % 0x1_0000))
  }

  /**
   * The header layout: tag at 0, timestamp at 4, duration at 12, flags at
   * 20, codec length at 24, width and height at 28 and 30; the codec bytes
   * start at 32 and the payload follows them.
   */
  lemma WireLayout(f: EncodedFrame)
    ensures |Wire(f)| == HeaderSize + |CodecBytes(f)| + |f.data|
    ensures ReadU32LE(Wire(f), 0) == TypeTag(f.frameType)
    ensures Wire(f)[4..12] == f.timestamp
    ensures Wire(f)[12..20] == DurationBits(f)
    ensures ReadU32LE(Wire(f), 20) == Flags(f)
    ensures ReadU32LE(Wire(f), 24) == |CodecBytes(f)| % 0x1_0000_0000
    ensures ReadU16LE(Wire(f), 28) == DimOrZero(f.width) % 0x1_0000
    ensures ReadU16LE(Wire(f), 30) == DimOrZero(f.height) % 0x1_0000
    ensures Wire(f)[HeaderSize..HeaderSize + |CodecBytes(f)|] == CodecBytes(f)
    ensures Wire(f)[HeaderSize + |CodecBytes(f)|..] == f.data
  {
    WireFields(f);
    HeaderReadsBack(Wire(f), f);
  }

  /** Any buffer holding a frame's header fields reads them back. */
  lemma HeaderReadsBack(w: Bytes, f: EncodedFrame)
    requires |w| >= HeaderSize
    requires w[0..4] == U32LE(TypeTag(f.frameType)) && w[20..24] == U32LE(Flags(f))
    requires w[24..28] == U32LE(|CodecBytes(f)|)
    requires w[28..30] == U16LE(DimOrZero(f.width)) && w[30..32] == U16LE(DimOrZero(f.height))
    ensures ReadU32LE(w, 0) == TypeTag(f.frameType)
    ensures ReadU32LE(w, 20) == Flags(f)
    ensures ReadU32LE(w, 24) == |CodecBytes(f)| % 0x1_0000_0000
    ensures ReadU16LE(w, 28) == DimOrZero(f.width) % 0x1_0000
    ensures ReadU16LE(w, 30) == DimOrZero(f.height) % 0x1_0000
  {
    ReadU32LEOfU32LE(TypeTag(f.frameType), w, 0);
    ReadU32LEOfU32LE(Flags(f), w, 20);
    ReadU32LEOfU32LE(|CodecBytes(f)|, w, 24);
    ReadU16LEOfU16LE(DimOrZero(f.width), w, 28);
    ReadU16LEOfU16LE(DimOrZero(f.height), w, 30);
  }

  /**
   * Round trip: reading back a serialized frame gives the frame with absent
   * and falsy fields normalised, and nothing else changed.
   */
  lemma RoundTrip(f: EncodedFrame)
    requires Serializable(f)
    ensures DeserializeFrame(Wire(f)) == Normalize(f)
  {
    WireLayout(f);
    ReadsBackNormalized(Wire(f), f);
  }

  /** Any buffer laid out as the frame's serialization reads back as the normalised frame. */
  lemma ReadsBackNormalized(w: Bytes, f: EncodedFrame)
    requires Serializable(f)
    requires |w| == HeaderSize + |CodecBytes(f)| + |f.data|
    requires ReadU32LE(w, 0) == TypeTag(f.frameType)
    requires w[4..12] == f.timestamp && w[12..20] == DurationBits(f)
    requires ReadU32LE(w, 20) == Flags(f)
    requires ReadU32LE(w, 24) == |CodecBytes(f)| % 0x1_0000_0000
    requires ReadU16LE(w, 28) == DimOrZero(f.width) % 0x1_0000
    requires ReadU16LE(w, 30) == DimOrZero(f.height) % 0x1_0000
    requires w[HeaderSize..HeaderSize + |CodecBytes(f)|] == CodecBytes(f)
    requires w[HeaderSize + |CodecBytes(f)|..] == f.data
    ensures DeserializeFrame(w) == Normalize(f)
  {
    var c := CodecBytes(f);
    assert Min(HeaderSize + ReadU32LE(w, 24), |w|) == HeaderSize + |c|;
    assert f.duration.None? ==> !IsFalsy(DurationBits(f)) == false;
  }

  /** A frame that came off the wire is already normal. */
  lemma DeserializedIsNormal(buf: Bytes)
    requires |buf| >= HeaderSize
    ensures Normalize(DeserializeFrame(buf)) == DeserializeFrame(buf)
  {
    var f := DeserializeFrame(buf);
    assert DimOrZero(f.width) % 0x1_0000 == DimOrZero(f.width);
    assert DimOrZero(f.height) % 0x1_0000 == DimOrZero(f.height);
  }

  /** A second trip over the wire changes nothing. */
  lemma SecondTripIsIdentity(buf: Bytes)
    requires |buf| >= HeaderSize
    ensures DeserializeFrame(Wire(DeserializeFrame(buf))) == DeserializeFrame(buf)
  {
    var f := DeserializeFrame(buf);
    DeserializedIsNormal(buf);
    assert Serializable(f);
    RoundTrip(f);
  }

  /** Only tags 0 and 1 name video and audio; every other tag reads as a config frame. */
  lemma UnknownTagIsConfig(buf: Bytes)
    requires |buf| >= HeaderSize
    ensures DeserializeFrame(buf).frameType == Config <==> ReadU32LE(buf, 0) !in {0, 1}
    ensures DeserializeFrame(buf).frameType == Video <==> ReadU32LE(buf, 0) == 0
  {
  }

  // ---------------------------------------------------------------------
  // Encoder configuration
  // ---------------------------------------------------------------------

  /**
   * The VideoEncoderConfig `initEncoder` builds. `bitrate` is in bit/s;
   * `annexB` is the H.264-only `avc.format = 'annexb'`.
   */
  datatype EncoderConfig = EncoderConfig(
    codec: string,
    width: nat,
    height: nat,
    bitrate: nat,
    framerate: nat,
    annexB: bool)

  /** Dimensions come from the preset, else from the captured track, else 1920 x 1080. */
  function EncoderConfigFor(settings: EncoderSettings, trackWidth: Option<nat>, trackHeight: Option<nat>): (c: EncoderConfig)
    ensures c.codec == CodecString(settings.codec) && c.annexB == (settings.codec == H264)
    ensures c.bitrate == settings.bitrate * 1000000 && c.framerate == settings.framerate
    ensures ResolutionMap(settings.resolution).Some? ==>
      c.width == ResolutionMap(settings.resolution).value.width && c.height == ResolutionMap(settings.resolution).value.height
    ensures settings.resolution == Original ==>
      c.width == (if trackWidth.Some? then trackWidth.value else 1920)
      && c.height == (if trackHeight.Some? then trackHeight.value else 1080)
  {
    var res := ResolutionMap(settings.resolution);
    EncoderConfig(
      CodecString(settings.codec),
      if res.Some? then res.value.width else if trackWidth.Some? then trackWidth.value else 1920,
      if res.Some? then res.value.height else if trackHeight.Some? then trackHeight.value else 1080,
      settings.bitrate * 1000000,
      settings.framerate,
      settings.codec == H264)
  }

  /** The default settings configure H.264 High at 1920 x 1080, 4 Mbit/s, 30 fps, whatever the track. */
  lemma DefaultEncoderConfig(trackWidth: Option<nat>, trackHeight: Option<nat>)
    ensures EncoderConfigFor(DefaultEncoderSettings, trackWidth, trackHeight)
         == EncoderConfig("avc1.640028", 1920, 1080, 4000000, 30, true)
  {
  }

  // ---------------------------------------------------------------------
  // The read loop of startEncodingFromTrack
  // ---------------------------------------------------------------------

  /** One frame read from the track, with the encoder's state at that moment. */
  datatype FrameRead = FrameRead(frame: nat, encoderConfigured: bool, encodeQueueSize: nat)

  /** One `encoder.encode(frame, { keyFrame })` call. */
  datatype EncodeCall = EncodeCall(frame: nat, keyFrame: bool)

  /** The loop's counters and what it has done so far. */
  datatype LoopState = LoopState(frameCount: nat, forceNextKeyFrame: bool, calls: seq<EncodeCall>, closed: seq<nat>)

  /** A frame is encoded only when the encoder is configured and has at most two frames queued. */
  predicate Encodable(r: FrameRead)
  {
    r.encoderConfigured && r.encodeQueueSize <= 2
  }

  /** One iteration: encode (a keyframe every `interval` frames or on request) or drop; close the frame. */
  function EncodeStep(interval: nat, s: LoopState, r: FrameRead): (next: LoopState)
    requires interval > 0
    ensures next.closed == s.closed + [r.frame]
    ensures |next.calls| == |s.calls| + (if Encodable(r) then 1 else 0) && next.calls[..|s.calls|] == s.calls
  {
    if !Encodable(r) then s.(closed := s.closed + [r.frame])
    else
      var keyFrame := s.frameCount % interval == 0 || s.forceNextKeyFrame;
      LoopState(s.frameCount + 1, false, s.calls + [EncodeCall(r.frame, keyFrame)], s.closed + [r.frame])
  }

  function EncodeRun(interval: nat, s: LoopState, inputs: seq<FrameRead>): LoopState
    requires interval > 0
  {
    if inputs == [] then s else EncodeStep(interval, EncodeRun(interval, s, inputs[..|inputs| - 1]), inputs[|inputs| - 1])
  }

  /** A dropped frame is closed and changes neither the frame count nor a pending keyframe request. */
  lemma DroppedFrameKeepsCounters(interval: nat, s: LoopState, r: FrameRead)
    requires interval > 0 && !Encodable(r)
    ensures EncodeStep(interval, s, r).frameCount == s.frameCount
    ensures EncodeStep(interval, s, r).forceNextKeyFrame == s.forceNextKeyFrame
    ensures EncodeStep(interval, s, r).calls == s.calls
    ensures EncodeStep(interval, s, r).closed == s.closed + [r.frame]
  {
  }

  /** A pending request makes the next encoded frame a keyframe and is then cleared. */
  lemma ForcedKeyFrame(interval: nat, s: LoopState, r: FrameRead)
    requires interval > 0 && Encodable(r) && s.forceNextKeyFrame
    ensures EncodeStep(interval, s, r).calls == s.calls + [EncodeCall(r.frame, true)]
    ensures !EncodeStep(interval, s, r).forceNextKeyFrame
  {
  }

  /** Every frame read is closed, in read order, whether it was encoded or dropped. */
  lemma {:induction false} EveryReadClosed(interval: nat, s: LoopState, inputs: seq<FrameRead>)
    requires interval > 0
    ensures |EncodeRun(interval, s, inputs).closed| == |s.closed| + |inputs|
    ensures forall k :: 0 <= k < |inputs| ==> EncodeRun(interval, s, inputs).closed[|s.closed| + k] == inputs[k].frame
    ensures EncodeRun(interval, s, inputs).closed[..|s.closed|] == s.closed
  {
    if inputs != [] {
      var prefix := inputs[..|inputs| - 1];
      EveryReadClosed(interval, s, prefix);
      var p := EncodeRun(interval, s, prefix);
      assert forall k :: 0 <= k < |prefix| ==> p.closed[|s.closed| + k] == inputs[k].frame;
    }
  }

  /**
   * Keyframe cadence: with no request pending and no frame dropped, the
   * k-th encoded frame is a keyframe exactly when (start + k) mod interval = 0.
   */
  lemma {:induction false} Cadence(interval: nat, start: nat, inputs: seq<FrameRead>)
    requires interval > 0
    requires forall k :: 0 <= k < |inputs| ==> Encodable(inputs[k])
    ensures EncodeRun(interval, LoopState(start, false, [], []), inputs).frameCount == start + |inputs|
    ensures !EncodeRun(interval, LoopState(start, false, [], []), inputs).forceNextKeyFrame
    ensures |EncodeRun(interval, LoopState(start, false, [], []), inputs).calls| == |inputs|
    ensures forall k :: 0 <= k < |inputs| ==>
      EncodeRun(interval, LoopState(start, false, [], []), inputs).calls[k]
        == EncodeCall(inputs[k].frame, (start + k) % interval == 0)
  {
    if inputs != [] {
      var prefix := inputs[..|inputs| - 1];
      Cadence(interval, start, prefix);
      var p := EncodeRun(interval, LoopState(start, false, [], []), prefix);
      assert forall k :: 0 <= k < |prefix| ==> p.calls[k] == EncodeCall(inputs[k].frame, (start + k) % interval == 0);
    }
  }

  /** At 30 fps the first 65 frames carry keyframes at frames 0 and 60 only. */
  lemma ThirtyFpsCadence(inputs: seq<FrameRead>)
    requires |inputs| == 65
    requires forall k :: 0 <= k < |inputs| ==> Encodable(inputs[k])
    ensures |EncodeRun(2 * 30, LoopState(0, false, [], []), inputs).calls| == 65
    ensures forall k :: 0 <= k < 65 ==>
      (EncodeRun(2 * 30, LoopState(0, false, [], []), inputs).calls[k].keyFrame <==> k == 0 || k == 60)
  {
    Cadence(2 * 30, 0, inputs);
  }

  // ---------------------------------------------------------------------
  // The encoder output handler
  // ---------------------------------------------------------------------

  datatype ChunkType = Key | Delta

  /** An EncodedVideoChunk as the output callback sees it. */
  datatype EncodedChunk = EncodedChunk(chunkType: ChunkType, timestamp: Float64Bits, duration: Option<Float64Bits>, data: Bytes)

  /** The callback's metadata: with or without a `decoderConfig` (which may carry a description). */
  datatype ChunkMetadata = NoDecoderConfig | WithDecoderConfig(description: Option<Bytes>)

  /** The video frame built for every chunk. */
  function VideoFrameOf(chunk: EncodedChunk): EncodedFrame
  {
    EncodedFrame(Video, chunk.timestamp, chunk.duration, chunk.data, Some(chunk.chunkType == Key), None, None, None)
  }

  /** The config frame cached from a key chunk's metadata: codec string, dimensions and the description bytes. */
  function ConfigFrameFor(cfg: EncoderConfig, timestamp: Float64Bits, description: Option<Bytes>): EncodedFrame
  {
    EncodedFrame(Config, timestamp, None, if description.Some? then description.value else [], None,
                 Some(Utf8Encode(cfg.codec)), Some(cfg.width), Some(cfg.height))
  }

  datatype OutputStep = OutputStep(cache: Option<EncodedFrame>, frames: seq<EncodedFrame>)

  /**
   * The output callback for one chunk: a key chunk with a decoderConfig
   * refreshes the cache; a key chunk re-emits the cached config stamped with
   * its own timestamp; then the video frame goes out.
   */
  function EncoderOutput(cache: Option<EncodedFrame>, cfg: EncoderConfig, chunk: EncodedChunk, meta: ChunkMetadata): (r: OutputStep)
    ensures |r.frames| >= 1 && r.frames[|r.frames| - 1] == VideoFrameOf(chunk)
    ensures chunk.chunkType == Delta ==> r == OutputStep(cache, [VideoFrameOf(chunk)])
    ensures chunk.chunkType == Key && meta.WithDecoderConfig? ==>
      r.cache == Some(ConfigFrameFor(cfg, chunk.timestamp, meta.description))
    ensures chunk.chunkType == Key && meta.NoDecoderConfig? ==> r.cache == cache
    ensures chunk.chunkType == Key ==>
      r.frames == (if r.cache.Some? then [r.cache.value.(timestamp := chunk.timestamp)] else []) + [VideoFrameOf(chunk)]
  {
    if chunk.chunkType == Delta then OutputStep(cache, [VideoFrameOf(chunk)])
    else
      var cache' := if meta.WithDecoderConfig? then Some(ConfigFrameFor(cfg, chunk.timestamp, meta.description)) else cache;
      var replay := if cache'.Some? then [cache'.value.(timestamp := chunk.timestamp)] else [];
      OutputStep(cache', replay + [VideoFrameOf(chunk)])
  }

  datatype Output = Output(chunk: EncodedChunk, meta: ChunkMetadata)

  function OutputRun(cache: Option<EncodedFrame>, cfg: EncoderConfig, outs: seq<Output>): OutputStep
  {
    if outs == [] then OutputStep(cache, [])
    else
      var prev := OutputRun(cache, cfg, outs[..|outs| - 1]);
      var last := outs[|outs| - 1];
      var step := EncoderOutput(prev.cache, cfg, last.chunk, last.meta);
      OutputStep(step.cache, prev.frames + step.frames)
  }

  predicate IsKeyVideo(f: EncodedFrame)
  {
    f.frameType == Video && f.isKeyFrame == Some(true)
  }

  /** A cache holds nothing but a config frame. */
  predicate CacheOk(cache: Option<EncodedFrame>)
  {
    cache.Some? ==> cache.value.frameType == Config
  }

  /** Every config frame is followed at once by a key video frame with the same timestamp. */
  predicate ConfigThenKey(fs: seq<EncodedFrame>)
  {
    forall i :: 0 <= i < |fs| && fs[i].frameType == Config ==>
      i + 1 < |fs| && IsKeyVideo(fs[i + 1]) && fs[i + 1].timestamp == fs[i].timestamp
  }

  /** Every key video frame comes right after a config frame with the same timestamp. */
  predicate KeyAfterConfig(fs: seq<EncodedFrame>)
  {
    forall i :: 0 <= i < |fs| && IsKeyVideo(fs[i]) ==>
      0 < i && fs[i - 1].frameType == Config && fs[i - 1].timestamp == fs[i].timestamp
  }

  /**
   * Over any run of encoder output: every emitted config frame is followed
   * at once by a key video frame with the same timestamp, and once a config
   * is cached every key video frame comes right after such a config.
   */
  lemma {:induction false} ConfigPrecedesKeyFrames(cache: Option<EncodedFrame>, cfg: EncoderConfig, outs: seq<Output>)
    requires CacheOk(cache)
    ensures CacheOk(OutputRun(cache, cfg, outs).cache)
    ensures cache.Some? ==> OutputRun(cache, cfg, outs).cache.Some?
    ensures ConfigThenKey(OutputRun(cache, cfg, outs).frames)
    ensures cache.Some? ==> KeyAfterConfig(OutputRun(cache, cfg, outs).frames)
  {
    if outs != [] {
      var prev := OutputRun(cache, cfg, outs[..|outs| - 1]);
      ConfigPrecedesKeyFrames(cache, cfg, outs[..|outs| - 1]);
      var last := outs[|outs| - 1];
      var step := EncoderOutput(prev.cache, cfg, last.chunk, last.meta);
      OutputStepShape(prev.cache, cfg, last.chunk, last.meta);
      var fs := prev.frames + step.frames;
      assert OutputRun(cache, cfg, outs).frames == fs;
      forall i | 0 <= i < |fs| && fs[i].frameType == Config
        ensures i + 1 < |fs| && IsKeyVideo(fs[i + 1]) && fs[i + 1].timestamp == fs[i].timestamp
      {
        if i < |prev.frames| {
          assert fs[i] == prev.frames[i];
          assert fs[i + 1] == prev.frames[i + 1];
        } else {
          assert fs[i] == step.frames[i - |prev.frames|];
          assert fs[i + 1] == step.frames[1];
        }
      }
      if cache.Some? {
        forall i | 0 <= i < |fs| && IsKeyVideo(fs[i])
          ensures 0 < i && fs[i - 1].frameType == Config && fs[i - 1].timestamp == fs[i].timestamp
        {
          if i < |prev.frames| {
            assert fs[i] == prev.frames[i];
            assert fs[i - 1] == prev.frames[i - 1];
          } else {
            assert fs[i] == step.frames[i - |prev.frames|];
            assert fs[i - 1] == step.frames[0];
          }
        }
      }
    }
  }

  /** One output step: a config frame comes only first of two, right before the key video frame with its timestamp. */
  lemma OutputStepShape(cache: Option<EncodedFrame>, cfg: EncoderConfig, chunk: EncodedChunk, meta: ChunkMetadata)
    requires CacheOk(cache)
    ensures var r := EncoderOutput(cache, cfg, chunk, meta);
      && CacheOk(r.cache) && (cache.Some? ==> r.cache.Some?)
      && (forall j :: 0 <= j < |r.frames| && r.frames[j].frameType == Config ==>
            j == 0 && |r.frames| == 2 && IsKeyVideo(r.frames[1]) && r.frames[1].timestamp == r.frames[0].timestamp)
      && (r.cache.Some? ==> forall j :: 0 <= j < |r.frames| && IsKeyVideo(r.frames[j]) ==>
            j == 1 && r.frames[0].frameType == Config && r.frames[0].timestamp == r.frames[1].timestamp)
  {
  }

  // ---------------------------------------------------------------------
  // The decoder
  // ---------------------------------------------------------------------

  /** The VideoDecoderConfig taken from a config frame. */
  datatype DecoderConfig = DecoderConfig(codec: Bytes, codedWidth: nat, codedHeight: nat, description: Option<Bytes>)

  /** One `decoder.decode(chunk)` call. */
  datatype DecodeCall = DecodeCall(keyFrame: bool, timestamp: Float64Bits, duration: Option<Float64Bits>, data: Bytes)

  /**
   * A config frame is usable only with a non-empty codec and non-zero width
   * and height; its payload, when non-empty, is the description.
   */
  function ConfigFromFrame(f: EncodedFrame): (c: Option<DecoderConfig>)
    ensures c.Some? <==> (|CodecBytes(f)| > 0 && DimOrZero(f.width) > 0 && DimOrZero(f.height) > 0)
    ensures c.Some? ==> c.value == DecoderConfig(CodecBytes(f), f.width.value, f.height.value,
                                                 if |f.data| > 0 then Some(f.data) else None)
  {
    if f.codec.None? || |f.codec.value| == 0 || f.width.None? || f.width.value == 0
       || f.height.None? || f.height.value == 0 then None
    else Some(DecoderConfig(f.codec.value, f.width.value, f.height.value, if |f.data| > 0 then Some(f.data) else None))
  }

  /** What an existing decoder holds: its last applied config, whether it is configured, what it decoded. */
  datatype DecoderState = DecoderState(config: Option<DecoderConfig>, configured: bool, decoded: seq<DecodeCall>)

  function DecodeCallOf(f: EncodedFrame): DecodeCall
  {
    DecodeCall(f.isKeyFrame == Some(true), f.timestamp, f.duration, f.data)
  }

  /**
   * `decodeFrame` on an existing decoder: a valid config frame is applied,
   * an invalid one discarded; video is decoded only once configured; audio
   * is ignored.
   */
  function DecodeStep(d: DecoderState, f: EncodedFrame): DecoderState
  {
    if f.frameType == Config then
      var c := ConfigFromFrame(f);
      if c.None? then d else DecoderState(c, true, d.decoded)
    else if f.frameType == Video && d.configured then d.(decoded := d.decoded + [DecodeCallOf(f)])
    else d
  }

  /** An invalid config frame leaves the decoder exactly as it was, so the previous config stays. */
  lemma InvalidConfigIgnored(d: DecoderState, f: EncodedFrame)
    requires f.frameType == Config
    requires |CodecBytes(f)| == 0 || DimOrZero(f.width) == 0 || DimOrZero(f.height) == 0
    ensures DecodeStep(d, f) == d
  {
  }

  /** A frame is decoded only if it is video and the decoder is configured, as key or delta per its flag. */
  lemma DecodeOnlyConfiguredVideo(d: DecoderState, f: EncodedFrame)
    ensures |DecodeStep(d, f).decoded| == |d.decoded| + (if f.frameType == Video && d.configured then 1 else 0)
    ensures DecodeStep(d, f).decoded[..|d.decoded|] == d.decoded
    ensures f.frameType == Video && d.configured ==>
      DecodeStep(d, f).decoded[|d.decoded|] == DecodeCall(f.isKeyFrame == Some(true), f.timestamp, f.duration, f.data)
    ensures f.frameType != Config ==> DecodeStep(d, f).config == d.config && DecodeStep(d, f).configured == d.configured
  {
  }

  /** The config frame the encoder emits is normal already: it keeps its codec, dimensions and payload. */
  lemma ConfigFrameIsNormal(cfg: EncoderConfig, timestamp: Float64Bits, description: Option<Bytes>)
    requires |cfg.codec| > 0
    requires 0 < cfg.width < 0x1_0000 && 0 < cfg.height < 0x1_0000
    ensures Normalize(ConfigFrameFor(cfg, timestamp, description))
         == EncodedFrame(Config, timestamp, None, ConfigFrameFor(cfg, timestamp, description).data, Some(false),
                         Some(Utf8Encode(cfg.codec)), Some(cfg.width), Some(cfg.height))
  {
    var f := ConfigFrameFor(cfg, timestamp, description);
    assert |CodecBytes(f)| >= |cfg.codec|;
  }

  /** The config frame the encoder emits reads back with its codec, dimensions and payload intact. */
  lemma ConfigFrameReadBack(cfg: EncoderConfig, timestamp: Float64Bits, description: Option<Bytes>)
    requires |cfg.codec| > 0 && IsAscii(cfg.codec) && |cfg.codec| < 0x1_0000_0000
    requires 0 < cfg.width < 0x1_0000 && 0 < cfg.height < 0x1_0000
    ensures DeserializeFrame(Wire(ConfigFrameFor(cfg, timestamp, description)))
         == EncodedFrame(Config, timestamp, None, ConfigFrameFor(cfg, timestamp, description).data, Some(false),
                         Some(Utf8Encode(cfg.codec)), Some(cfg.width), Some(cfg.height))
  {
    var f := ConfigFrameFor(cfg, timestamp, description);
    ConfigFrameIsNormal(cfg, timestamp, description);
    assert |CodecBytes(f)| == |cfg.codec|;
    RoundTrip(f);
  }

  /**
   * End to end: the config frame the encoder emits, once serialized and
   * read back, configures a decoder with the encoder's codec string,
   * dimensions and description (when the dimensions fit their u16 fields).
   */
  lemma ConfigSurvivesTheWire(d: DecoderState, cfg: EncoderConfig, timestamp: Float64Bits, description: Option<Bytes>)
    requires |cfg.codec| > 0 && IsAscii(cfg.codec) && |cfg.codec| < 0x1_0000_0000
    requires 0 < cfg.width < 0x1_0000 && 0 < cfg.height < 0x1_0000
    ensures DecodeStep(d, DeserializeFrame(Wire(ConfigFrameFor(cfg, timestamp, description))))
         == DecoderState(Some(DecoderConfig(Utf8Encode(cfg.codec), cfg.width, cfg.height,
                                            if description.Some? && |description.value| > 0 then description else None)),
                         true, d.decoded)
  {
    ConfigFrameReadBack(cfg, timestamp, description);
  }

  /** Where each field of the header sits in the serialized frame. */
  lemma WireFields(f: EncodedFrame)
    ensures |Wire(f)| == HeaderSize + |CodecBytes(f)| + |f.data|
    ensures Wire(f)[0..4] == U32LE(TypeTag(f.frameType))
    ensures Wire(f)[4..12] == f.timestamp
    ensures Wire(f)[12..20] == DurationBits(f)
    ensures Wire(f)[20..24] == U32LE(Flags(f))
    ensures Wire(f)[24..28] == U32LE(|CodecBytes(f)|)
    ensures Wire(f)[28..30] == U16LE(DimOrZero(f.width))
    ensures Wire(f)[30..32] == U16LE(DimOrZero(f.height))
    ensures Wire(f)[HeaderSize..HeaderSize + |CodecBytes(f)|] == CodecBytes(f)
    ensures Wire(f)[HeaderSize + |CodecBytes(f)|..] == f.data
  {
  }

  /** Writing the next field of `w` at the end of a correct prefix gives a longer correct prefix. */
  lemma PrefixGrows(w: Bytes, before: Bytes, off: nat, src: Bytes, after: Bytes)
    requires |before| == |w| && off + |src| <= |w|
    requires before[..off] == w[..off] && w[off..off + |src|] == src
    requires after == before[..off] + src + before[off + |src|..]
    ensures |after| == |w| && after[..off + |src|] == w[..off + |src|]
  {
    assert w[..off + |src|] == w[..off] + w[off..off + |src|];
  }

  // ---------------------------------------------------------------------
  // The session object
  // ---------------------------------------------------------------------

  /** The encoding side of the session, apart from the read loop's counters. */
  datatype EncodingSide = EncodingSide(
    /** `encoder.value !== null`; its configuration. */
    encoderConfig: Option<EncoderConfig>,
    isEncoding: bool,
    encodingActive: bool,
    /** `frameReader !== null`. */
    readerOpen: bool,
    keyFrameInterval: nat,
    /** The config frame cached by the current encoder's output handler. */
    cachedConfig: Option<EncodedFrame>,
    /** `onEncodedFrame !== null`. */
    outputAttached: bool)

  /** The decoding side: `decoder.value !== null`, the decoder's state and `isDecoding`. */
  datatype DecodingSide = DecodingSide(decoderOpen: bool, decoder: DecoderState, isDecoding: bool)

  /**
   * The composable's refs, grouped: the encoding side, the read loop's
   * counters, the frames handed to `onEncodedFrame` and the decoding side.
   */
  class WebCodecsSession {
    var encoding: EncodingSide
    var loop: LoopState
    /** Every frame handed to `onEncodedFrame`, oldest first. */
    var emitted: seq<EncodedFrame>
    var decoding: DecodingSide

    ghost predicate Valid()
      reads this
    {
      && encoding.keyFrameInterval > 0
      && CacheOk(encoding.cachedConfig)
      && (encoding.encodingActive ==> encoding.encoderConfig.Some?)
      && (decoding.decoder.configured ==> decoding.decoderOpen)
    }

    constructor()
      ensures Valid()
      ensures encoding == EncodingSide(None, false, false, false, 2 * DefaultEncoderSettings.framerate, None, false)
      ensures loop == LoopState(0, false, [], []) && emitted == []
      ensures decoding == DecodingSide(false, DecoderState(None, false, []), false)
    {
      encoding := EncodingSide(None, false, false, false, 2 * DefaultEncoderSettings.framerate, None, false);
      loop := LoopState(0, false, [], []);
      emitted := [];
      decoding := DecodingSide(false, DecoderState(None, false, []), false);
    }

    /**
     * `initEncoder` followed by the set-up part of `startEncodingFromTrack`:
     * a configured encoder with an empty config cache, a keyframe every two
     * seconds of frames, and a fresh frame count. A pending keyframe request survives.
     */
    method InitEncoder(settings: EncoderSettings, trackWidth: Option<nat>, trackHeight: Option<nat>)
      requires Valid()
      modifies this
      ensures Valid()
      ensures encoding == EncodingSide(Some(EncoderConfigFor(settings, trackWidth, trackHeight)), true, true, true,
                                       2 * settings.framerate, None, true)
      ensures loop == old(loop).(frameCount := 0)
      ensures emitted == old(emitted) && decoding == old(decoding)
    {
      var config := EncoderConfigFor(settings, trackWidth, trackHeight);
      encoding := EncodingSide(Some(config), true, true, true, 2 * settings.framerate, None, true);
      loop := loop.(frameCount := 0);
    }

    /**
     * The read loop of `startEncodingFromTrack` over the frames read until the
     * stream ends; it does not run once encoding was stopped.
     */
    method EncodeFrames(inputs: seq<FrameRead>)
      requires Valid()
      modifies this
      ensures Valid()
      ensures old(encoding.encodingActive && encoding.encoderConfig.Some? && encoding.readerOpen) ==>
        loop == EncodeRun(encoding.keyFrameInterval, old(loop), inputs)
      ensures !old(encoding.encodingActive && encoding.encoderConfig.Some? && encoding.readerOpen) ==> loop == old(loop)
      ensures encoding == old(encoding) && emitted == old(emitted) && decoding == old(decoding)
    {
      if !(encoding.encodingActive && encoding.encoderConfig.Some? && encoding.readerOpen) {
        return;
      }
      var interval := encoding.keyFrameInterval;
      var i := 0;
      while i < |inputs|
        invariant 0 <= i <= |inputs|
        invariant loop == EncodeRun(interval, old(loop), inputs[..i])
        invariant encoding == old(encoding) && emitted == old(emitted) && decoding == old(decoding)
      {
        var read := inputs[i];
        assert inputs[..i + 1][..i] == inputs[..i];
        // a configured encoder with more than two frames queued drops the frame
        if read.encoderConfigured && read.encodeQueueSize <= 2 {
          var keyFrame := loop.frameCount % interval == 0 || loop.forceNextKeyFrame;
          loop := LoopState(loop.frameCount + 1, false, loop.calls + [EncodeCall(read.frame, keyFrame)], loop.closed);
        }
        loop := loop.(closed := loop.closed + [read.frame]);
        i := i + 1;
      }
      assert inputs[..|inputs|] == inputs;
    }

    /** `requestKeyFrame`: sets the request only while encoding. */
    method RequestKeyFrame()
      requires Valid()
      modifies this
      ensures Valid()
      ensures loop == old(loop).(forceNextKeyFrame := old(loop.forceNextKeyFrame) || encoding.isEncoding)
      ensures encoding == old(encoding) && emitted == old(emitted) && decoding == old(decoding)
    {
      if encoding.isEncoding {
        loop := loop.(forceNextKeyFrame := true);
      }
    }

    /** The encoder's `output` callback: the cache and the emitted frames follow `EncoderOutput`. */
    method OnEncoderOutput(chunk: EncodedChunk, meta: ChunkMetadata)
      requires Valid() && encoding.encoderConfig.Some?
      modifies this
      ensures Valid()
      ensures encoding == old(encoding).(cachedConfig :=
        EncoderOutput(old(encoding.cachedConfig), old(encoding.encoderConfig.value), chunk, meta).cache)
      ensures emitted == old(emitted) +
        (if encoding.outputAttached
         then EncoderOutput(old(encoding.cachedConfig), old(encoding.encoderConfig.value), chunk, meta).frames
         else [])
      ensures loop == old(loop) && decoding == old(decoding)
    {
      var frameData := VideoFrameOf(chunk);
      var cache := encoding.cachedConfig;
      var out := [];
      if chunk.chunkType == Key {
        if meta.WithDecoderConfig? {
          var config := ConfigFrameFor(encoding.encoderConfig.value, chunk.timestamp, None);
          if meta.description.Some? {
            config := config.(data := meta.description.value);
          }
          cache := Some(config);
        }
        if cache.Some? {
          out := [cache.value.(timestamp := chunk.timestamp)];
        }
      }
      encoding := encoding.(cachedConfig := cache);
      if encoding.outputAttached {
        emitted := emitted + (out + [frameData]);
      }
    }

    /** `stopEncoder`: everything on the encoding side is released; a second call changes nothing more. */
    method StopEncoder()
      requires Valid()
      modifies this
      ensures Valid()
      ensures encoding == old(encoding).(encoderConfig := None, isEncoding := false, encodingActive := false,
                                         readerOpen := false, outputAttached := false)
      ensures loop == old(loop) && emitted == old(emitted) && decoding == old(decoding)
    {
      encoding := encoding.(encoderConfig := None, isEncoding := false, encodingActive := false,
                            readerOpen := false, outputAttached := false);
    }

    /** `initDecoder`: a fresh, unconfigured decoder; a config stored earlier is kept. */
    method InitDecoder()
      requires Valid()
      modifies this
      ensures Valid()
      ensures decoding == DecodingSide(true, old(decoding.decoder).(configured := false), true)
      ensures loop == old(loop) && encoding == old(encoding) && emitted == old(emitted)
    {
      decoding := DecodingSide(true, decoding.decoder.(configured := false), true);
    }

    /** `decodeFrame`: ignored without a decoder; otherwise the decoder follows `DecodeStep`. */
    method DecodeFrame(f: EncodedFrame)
      requires Valid()
      modifies this
      ensures Valid()
      ensures decoding == if old(decoding.decoderOpen) then old(decoding).(decoder := DecodeStep(old(decoding.decoder), f))
                          else old(decoding)
      ensures loop == old(loop) && encoding == old(encoding) && emitted == old(emitted)
    {
      if !decoding.decoderOpen {
        return;
      }
      var d := decoding.decoder;
      if f.frameType == Config {
        if f.codec.None? || |f.codec.value| == 0 || f.width.None? || f.width.value == 0
           || f.height.None? || f.height.value == 0 {
          return;
        }
        var config := DecoderConfig(f.codec.value, f.width.value, f.height.value,
                                    if |f.data| > 0 then Some(f.data) else None);
        decoding := decoding.(decoder := DecoderState(Some(config), true, d.decoded));
        return;
      }
      if f.frameType == Video && d.configured {
        var call := DecodeCall(f.isKeyFrame == Some(true), f.timestamp, f.duration, f.data);
        decoding := decoding.(decoder := d.(decoded := d.decoded + [call]));
      }
    }

    /** `stopDecoder`: the decoder and its stored config are released; a second call changes nothing more. */
    method StopDecoder()
      requires Valid()
      modifies this
      ensures Valid()
      ensures decoding == DecodingSide(false, DecoderState(None, false, old(decoding.decoder.decoded)), false)
      ensures loop == old(loop) && encoding == old(encoding) && emitted == old(emitted)
    {
      decoding := DecodingSide(false, DecoderState(None, false, decoding.decoder.decoded), false);
    }

    /** `serializeFrame`: a fresh buffer of the exact size, filled field by field. */
    static method SerializeFrame(f: EncodedFrame) returns (wire: Bytes)
      ensures wire == Wire(f)
    {
      ghost var w := Wire(f);
      WireFields(f);
      var codecBytes := CodecBytes(f);
      var buffer := new byte[HeaderSize + |codecBytes| + |f.data|](_ => 0);
      assert buffer[..0] == w[..0];
      WriteUint32(buffer, w, 0, TypeTag(f.frameType));
      WriteBytes(buffer, w, 4, f.timestamp);
      WriteBytes(buffer, w, 12, DurationBits(f));
      WriteUint32(buffer, w, 20, if f.isKeyFrame == Some(true) then 1 else 0);
      WriteUint32(buffer, w, 24, |codecBytes|);
      WriteUint16(buffer, w, 28, DimOrZero(f.width));
      WriteUint16(buffer, w, 30, DimOrZero(f.height));
      WriteBytes(buffer, w, HeaderSize, codecBytes);
      WriteBytes(buffer, w, HeaderSize + |codecBytes|, f.data);
      wire := buffer[..];
      assert wire == buffer[..|w|] && w[..|w|] == w;
    }

    /** Copying the next field of `w` after a correct prefix of the buffer makes the correct prefix longer. */
    static method WriteBytes(buffer: array<byte>, ghost w: Bytes, off: nat, src: Bytes)
      requires buffer.Length == |w| && off + |src| <= |w|
      requires buffer[..off] == w[..off] && w[off..off + |src|] == src
      modifies buffer
      ensures buffer[..off + |src|] == w[..off + |src|]
    {
      ghost var before := buffer[..];
      SetBytes(buffer, off, src);
      PrefixGrows(w, before, off, src, buffer[..]);
    }

    /** `setUint32` of the next field of `w`. */
    static method WriteUint32(buffer: array<byte>, ghost w: Bytes, off: nat, v: nat)
      requires buffer.Length == |w| && off + 4 <= |w|
      requires buffer[..off] == w[..off] && w[off..off + 4] == U32LE(v)
      modifies buffer
      ensures buffer[..off + 4] == w[..off + 4]
    {
      ghost var before := buffer[..];
      SetUint32(buffer, off, v);
      PrefixGrows(w, before, off, U32LE(v), buffer[..]);
    }

    /** `setUint16` of the next field of `w`. */
    static method WriteUint16(buffer: array<byte>, ghost w: Bytes, off: nat, v: nat)
      requires buffer.Length == |w| && off + 2 <= |w|
      requires buffer[..off] == w[..off] && w[off..off + 2] == U16LE(v)
      modifies buffer
      ensures buffer[..off + 2] == w[..off + 2]
    {
      ghost var before := buffer[..];
      SetUint16(buffer, off, v);
      PrefixGrows(w, before, off, U16LE(v), buffer[..]);
    }
  }
}
