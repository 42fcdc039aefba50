# Screen-sharing data path and signalling table, in Dafny

This project models the core of a browser screen-sharing application:

- **Chunked peer transport** (`chunk_transport.dfy`, module `ChunkTransport`).
  Binary payloads go over a WebRTC data channel in 16 KiB Chunk records (type `0x01`, u32 sequence, u16 index, slice), then one 13-byte Complete record.
  The receiver keeps a per-peer table of slices (peer → sequence → index → bytes) and delivers the joined payload once every slice is present.
  Class `PeerTransport` holds the connection set, the data-channel list, the receive buffers, the shared `messageSeq` counter, and the logs of sent records and delivered payloads.
- **Frame codec and encode/decode control** (`web_codecs.dfy`, module `WebCodecs`).
  - The 32-byte little-endian `EncodedFrameData` header, with its serializer (a method filling a fresh array) and deserializer (a function).
  - The keyframe cadence and backpressure of the encoder read loop.
  - The encoder output handler that caches a config frame and replays it before every key chunk.
  - The decoder's gating of config and video frames.
  - Class `WebCodecsSession` holds the composable's refs, grouped into an encoding side, the loop counters, the emitted frames and a decoding side.
- **Per-sharer decoder registry** (`conference_codecs.dfy`, class `ConferenceCodecs.ConferenceDecoders`).
  Three tables kept in step, at most one decoder per sharer id, and per-id teardown.
- **Signalling-server room table** (`signaling_server.dfy`, module `SignalingServer`).
  - Classic rooms have a host and viewers; conference rooms have participants with an `isSharing` flag.
  - Each socket has its `currentRoom`.
  - The handlers `join-room`, `start-sharing`/`stop-sharing`, `disconnect`, `request-stream`, `request-peer-stream` and the relays are specified as functions on the state (`JoinRoom`, `SetSharing`, `Disconnect`, …) and implemented by class `SignalingServer`, whose methods change the table in place and append to an emit log.
  - The invariant `Inv` says every room has a sound shape and every member's current room is that room. It is preserved by every handler.
- **Shared types** (`types.dfy`, module `Types`): the encoder settings, `RESOLUTION_MAP`, `CODEC_MAP`, the default settings and `EncodedFrameData`.
  Little-endian fields and buffer writes live in `byte_buffers.dfy`.

Timestamps and durations are kept as the 8 bytes `DataView.setFloat64` writes. JS truthiness of such a number (+0, -0 and NaN are falsy) is decided on those bits. The codec string travels as UTF-8 bytes.

Behaviours of the code that the model keeps as written:

- `deserializeFrame` does not fail on a buffer shorter than header + codec length. Its slices clamp to the buffer, and only a buffer shorter than the 32-byte header makes the DataView reads throw. `WebCodecs.DeserializeFrame` therefore requires 32 bytes and clamps.
- An empty payload is sent as a lone Complete record with chunk count 0. The receiver has no entry for that sequence and delivers nothing (`ChunkTransport.EmptyPayload`).
- Reassembly writes into a fresh zero-filled `Uint8Array(totalSize)`. Slices shorter in total leave zero padding. Slices longer in total make `set` throw, and nothing is delivered or removed.
- `join-room` looks up (or creates) the target room before it leaves the previous room. See "## Findings".

## Model

| member | source | states |
|---|---|---|
| Types.ResolutionMap | client/src/types/index.ts:19-24 | only `original` has no size; every other preset is a 16:9 size whose height is the preset's own: 720, 1080 or 1440 |
| Types.CodecString | client/src/types/index.ts:29-35 | every codec choice maps to a non-empty ASCII codec string |
| Types.CodecStringInjective | client/src/types/index.ts:29-35 | no two codec choices share a codec string |
| Types.Utf8Encode | client/src/composables/useWebCodecs.ts:325 | the encoded codec string is between 1 and 4 bytes per character, and an ASCII string encodes to its own character codes |
| ByteBuffers.ReadU16LEOfU16LE | client/src/composables/useWebRTC.ts:123 | a u16 field read back yields the written value modulo 2^16 |
| ByteBuffers.ReadU32LEOfU32LE | client/src/composables/useWebRTC.ts:122 | a u32 field read back yields the written value modulo 2^32 |
| ByteBuffers.SetBytes | client/src/composables/useWebRTC.ts:266 | the buffer holds `src` at the offset and is unchanged elsewhere |
| ByteBuffers.SetUint16 | client/src/composables/useWebRTC.ts:265 | the buffer holds the two little-endian bytes at the offset and is unchanged elsewhere |
| ByteBuffers.SetUint32 | client/src/composables/useWebRTC.ts:264 | the buffer holds the four little-endian bytes at the offset and is unchanged elsewhere |
| ChunkTransport.SendRecords | client/src/composables/useWebRTC.ts:250-280 | one send is count+1 records; its layout is in `SendRecordsLayout` and it reads back through `RoundTrip` |
| ChunkTransport.Parse | client/src/composables/useWebRTC.ts:119-142 | a message shorter than 7 bytes, or a Complete record shorter than 13, is truncated (the DataView reads throw); type 1 is a Chunk whose slice is everything after byte 7; the fields are bounded by their widths; `ParseChunkRecord` and `ParseCompleteRecord` invert the record builders |
| ChunkTransport.Receive | client/src/composables/useWebRTC.ts:119-170 | one message on a peer buffer; `ReceiveTouchesOnlyItsSequence`, `ReceiveDeliversOnlyComplete`, `IncompleteStaysPending`, `StoreChunks` and `CompleteAfterChunks` characterise it |
| ChunkTransport.TotalChunksIsCeiling | client/src/composables/useWebRTC.ts:252 | the chunk count is ceil(n / 16384), and it is 0 exactly for the empty payload |
| ChunkTransport.SliceLength | client/src/composables/useWebRTC.ts:255-258 | every slice is 16384 bytes except the last, which holds the rest and is never empty |
| ChunkTransport.ParseChunkRecord | client/src/composables/useWebRTC.ts:119-136 | a Chunk record is 7 bytes longer than its slice and reads back as its sequence, index and slice, modulo the field widths |
| ChunkTransport.ParseCompleteRecord | client/src/composables/useWebRTC.ts:271-278 | a Complete record is 13 bytes; the counts at offsets 5 and 7 agree; it reads back as sequence, count and size |
| ChunkTransport.SendRecordsLayout | client/src/composables/useWebRTC.ts:252-280 | one send emits ceil(n/16384) Chunk records, record i carrying index i and bytes [i·16384, min((i+1)·16384, n)), then the Complete record with the count and n |
| ChunkTransport.ParseChunkRecordAt | client/src/composables/useWebRTC.ts:255-268 | Chunk record i of a payload that fits the u16 index reads back as index i and slice i |
| ChunkTransport.ParseCompleteRecordOf | client/src/composables/useWebRTC.ts:271-278 | the Complete record of a payload that fits reads back as its chunk count and length |
| ChunkTransport.ReceiveTouchesOnlyItsSequence | client/src/composables/useWebRTC.ts:128-167 | a message changes at most the entry of its own sequence number |
| ChunkTransport.ReceiveDeliversOnlyComplete | client/src/composables/useWebRTC.ts:137-168 | only a Complete record whose slices 0..total-1 are all present delivers; it delivers totalSize bytes and removes exactly that entry |
| ChunkTransport.IncompleteStaysPending | client/src/composables/useWebRTC.ts:145-152 | a Complete record with a slice missing delivers nothing and leaves the buffer unchanged |
| ChunkTransport.FeedAllAppend | client/src/composables/useWebRTC.ts:106-110 | handling two message lists one after the other is handling their concatenation |
| ChunkTransport.StoreChunks | client/src/composables/useWebRTC.ts:128-136 | Chunk records in any order and with repeats store slice i at index i, deliver nothing and touch no other sequence |
| ChunkTransport.JoinedSlices | client/src/composables/useWebRTC.ts:155-164 | joining slices 0..t-1 gives the payload's first min(t·16384, n) bytes |
| ChunkTransport.ReassembleAnyOrder | client/src/composables/useWebRTC.ts:128-167 | any arrival order covering all chunk indices, then the Complete record, delivers exactly the payload and removes only its entry |
| ChunkTransport.CompleteAfterChunks | client/src/composables/useWebRTC.ts:137-168 | with every slice stored, the Complete record delivers the payload and drops only its entry |
| ChunkTransport.CompleteReceived | client/src/composables/useWebRTC.ts:154-167 | the joined slices fill the result buffer exactly, with no zero padding |
| ChunkTransport.RoundTrip | client/src/composables/useWebRTC.ts:250-280 | the records of one send, handled in order by a peer with a buffer, deliver exactly the sent bytes |
| ChunkTransport.EmptyPayload | client/src/composables/useWebRTC.ts:137-143 | an empty payload is a lone Complete record with count 0, and a receiver without that entry delivers nothing |
| ChunkTransport.WithKey | client/src/composables/useWebRTC.ts:112 | after `Map.set` the key list holds the old keys and the new one, and stays free of repeats |
| ChunkTransport.WithoutKey | client/src/composables/useWebRTC.ts:98 | after `Map.delete` the key list holds the old keys except the deleted one, and stays free of repeats |
| ChunkTransport.BroadcastOutput | client/src/composables/useWebRTC.ts:289-293 | a broadcast consumes one sequence number per accepting channel |
| ChunkTransport.RecordsOfLength | client/src/composables/useWebRTC.ts:252-280 | every message is sent as count+1 records, whatever its sequence number |
| ChunkTransport.BroadcastLength | client/src/composables/useWebRTC.ts:289-293 | a broadcast sends one block of records per accepting channel, so count+1 records each for `sendData` |
| ChunkTransport.BroadcastBlock | client/src/composables/useWebRTC.ts:289-293 | the k-th channel, when it accepts, gets the records built under sequence `seqNo + c`, where c counts the accepting channels before it, and they sit c blocks into the output |
| ChunkTransport.BroadcastOnlyAccepting | client/src/composables/useWebRTC.ts:238-247 | every record of a broadcast goes to a listed channel that accepts |
| ChunkTransport.BroadcastSkipsOthers | client/src/composables/useWebRTC.ts:289-293 | a peer without a channel is sent nothing |
| ChunkTransport.BroadcastRecordsTo | client/src/composables/useWebRTC.ts:238-293 | over channels without repeats, each peer is sent exactly the records of one message under sequence `seqNo + c` when its channel accepts, and nothing when it refuses |
| ChunkTransport.PeerTransport.constructor | client/src/composables/useWebRTC.ts:18-33 | all tables empty, sequence 0, disconnected |
| ChunkTransport.PeerTransport.CreatePeerConnection | client/src/composables/useWebRTC.ts:82-83 | the connection is recorded and the peer's buffer reset; nothing else changes |
| ChunkTransport.PeerTransport.SetupDataChannel | client/src/composables/useWebRTC.ts:112-115 | the channel is recorded; a buffer is created only when the peer has none |
| ChunkTransport.PeerTransport.CreateOffer | client/src/composables/useWebRTC.ts:173-186 | an existing connection is reused, a channel is set up, and the state becomes connecting |
| ChunkTransport.PeerTransport.HandleOffer | client/src/composables/useWebRTC.ts:198-203 | an existing connection is reused, and the state becomes connecting |
| ChunkTransport.PeerTransport.CleanupPeer | client/src/composables/useWebRTC.ts:36-50 | only this peer's channel, connection and buffer are removed |
| ChunkTransport.PeerTransport.ClosePeer | client/src/composables/useWebRTC.ts:296-310 | only this peer's channel, connection and buffer are removed |
| ChunkTransport.PeerTransport.CloseAll | client/src/composables/useWebRTC.ts:313-322 | all three tables are empty and the state is disconnected |
| ChunkTransport.PeerTransport.OnChannelClose | client/src/composables/useWebRTC.ts:96-100 | this peer's channel and buffer are removed; its connection stays |
| ChunkTransport.PeerTransport.OnConnectionStateChange | client/src/composables/useWebRTC.ts:62-76 | connected, failed, disconnected and closed set the state; failed records the error; these last three tear down only this peer |
| ChunkTransport.PeerTransport.CheckComplete | client/src/composables/useWebRTC.ts:146-152 | the result is true exactly when slices 0..total-1 are all present |
| ChunkTransport.PeerTransport.Reassemble | client/src/composables/useWebRTC.ts:154-164 | the result is the joined slices padded with zeros to totalSize, or none when they do not fit |
| ChunkTransport.PeerTransport.HandleReceivedChunk | client/src/composables/useWebRTC.ts:119-170 | the peer's buffer and the deliveries follow `Receive`; peers without a buffer and all other peers are untouched |
| ChunkTransport.PeerTransport.BuildChunkRecord | client/src/composables/useWebRTC.ts:261-266 | the buffer filled field by field is the Chunk record |
| ChunkTransport.PeerTransport.BuildCompleteRecord | client/src/composables/useWebRTC.ts:272-278 | the buffer filled field by field is the Complete record |
| ChunkTransport.PeerTransport.SendData | client/src/composables/useWebRTC.ts:238-286 | it refuses (false, nothing sent, sequence kept) without an open channel or above 5 MiB buffered; otherwise it sends the message's records under the current sequence, which advances by one |
| ChunkTransport.PeerTransport.BroadcastData | client/src/composables/useWebRTC.ts:289-293 | it sends to every channel in map order, as `BroadcastOutput` with the records of `sendData` says; the class invariant keeps the channel list free of repeats, so `BroadcastRecordsTo` applies to it |
| WebCodecs.DeserializeFrame | client/src/composables/useWebCodecs.ts:357-385 | the timestamp is bytes 4..12 and the key flag is "u32 at 20 equals 1"; the duration is absent exactly when bytes 12..20 are falsy and is those bytes otherwise; width and height are absent exactly when their u16 is 0 and are that u16 otherwise; the codec is absent exactly when its length field is 0 or nothing follows the header; codec and payload together are the bytes after the header, the codec taking min(length field, what is there) |
| WebCodecs.Wire | client/src/composables/useWebCodecs.ts:323-354 | the serialized image; `WireLayout` gives each field's place and `RoundTrip` reads it back |
| WebCodecs.Normalize | client/src/composables/useWebCodecs.ts:357-385 | a frame as it comes off the wire; `RoundTrip`, `DeserializedIsNormal` and `SecondTripIsIdentity` characterise it |
| WebCodecs.WireLayout | client/src/composables/useWebCodecs.ts:323-351 | length 32 + codec + payload; tag at 0, timestamp at 4, duration at 12, flags at 20, codec length at 24, width and height at 28 and 30; codec at 32, then the payload |
| WebCodecs.WireFields | client/src/composables/useWebCodecs.ts:340-351 | each header field's bytes sit at their offsets |
| WebCodecs.RoundTrip | client/src/composables/useWebCodecs.ts:323-385 | deserializing a serialized frame gives the frame normalized: falsy values absent, missing key flag false |
| WebCodecs.DeserializedIsNormal | client/src/composables/useWebCodecs.ts:375-384 | a frame that came off the wire is already normalized |
| WebCodecs.SecondTripIsIdentity | client/src/composables/useWebCodecs.ts:323-385 | a second serialize/deserialize trip changes nothing |
| WebCodecs.UnknownTagIsConfig | client/src/composables/useWebCodecs.ts:362-363 | tag 0 reads as video, and every tag but 0 and 1 reads as config |
| WebCodecs.EncoderConfigFor | client/src/composables/useWebCodecs.ts:66-91 | the codec string comes from the table, the bitrate is in bit/s, and the size comes from the preset, else the track, else 1920×1080 |
| WebCodecs.DefaultEncoderConfig | client/src/types/index.ts:38-43 | the default settings configure H.264 `avc1.640028`, 1920×1080, 4 Mbit/s, 30 fps |
| WebCodecs.EncodeStep | client/src/composables/useWebCodecs.ts:178-194 | one read: the frame is closed; one encode call is made exactly when the encoder is configured with at most two queued, and earlier calls stay |
| WebCodecs.EncodeRun | client/src/composables/useWebCodecs.ts:173-198 | the read loop over a list of reads; `EveryReadClosed`, `Cadence` and `ThirtyFpsCadence` characterise it |
| WebCodecs.DroppedFrameKeepsCounters | client/src/composables/useWebCodecs.ts:178-183 | a frame read while unconfigured or with more than two queued is closed and not encoded; the count and a pending request are kept |
| WebCodecs.ForcedKeyFrame | client/src/composables/useWebCodecs.ts:186-192 | a pending request makes the next encoded frame a keyframe and is cleared |
| WebCodecs.EveryReadClosed | client/src/composables/useWebCodecs.ts:178-194 | every frame read is closed, in read order |
| WebCodecs.Cadence | client/src/composables/useWebCodecs.ts:170-192 | with no request and no drop, the k-th encoded frame is a keyframe iff (start + k) mod interval = 0 |
| WebCodecs.ThirtyFpsCadence | client/src/composables/useWebCodecs.ts:170-171 | at 30 fps the first 65 frames have keyframes at 0 and 60 only |
| WebCodecs.EncoderOutput | client/src/composables/useWebCodecs.ts:94-137 | a delta chunk emits only its video frame; a key chunk refreshes the cache only with a decoderConfig, and emits the cached config, stamped with its timestamp, before the video frame |
| WebCodecs.OutputRun | client/src/composables/useWebCodecs.ts:94-137 | the output handler over a run of chunks; `ConfigPrecedesKeyFrames` characterises it |
| WebCodecs.ConfigPrecedesKeyFrames | client/src/composables/useWebCodecs.ts:106-137 | over any output run, each config frame is followed at once by a key video frame with the same timestamp; once a config is cached, every key frame comes right after one |
| WebCodecs.ConfigFromFrame | client/src/composables/useWebCodecs.ts:270-280 | a config is usable iff codec, width and height are all truthy; the payload is the description when non-empty |
| WebCodecs.DecodeStep | client/src/composables/useWebCodecs.ts:260-305 | one frame on an existing decoder; `InvalidConfigIgnored`, `DecodeOnlyConfiguredVideo` and `ConfigSurvivesTheWire` characterise it |
| WebCodecs.InvalidConfigIgnored | client/src/composables/useWebCodecs.ts:270-273 | an invalid config frame leaves the decoder, and its previous config, unchanged |
| WebCodecs.DecodeOnlyConfiguredVideo | client/src/composables/useWebCodecs.ts:292-304 | a frame is decoded iff it is video and the decoder is configured, as key or delta per its flag; non-config frames do not change the configuration |
| WebCodecs.ConfigFrameIsNormal | client/src/composables/useWebCodecs.ts:110-117 | the config frame the encoder caches keeps its codec, dimensions and payload under normalization |
| WebCodecs.ConfigFrameReadBack | client/src/composables/useWebCodecs.ts:110-117 | that config frame reads back from the wire with codec, dimensions and payload intact |
| WebCodecs.ConfigSurvivesTheWire | client/src/composables/useWebCodecs.ts:275-283 | that config frame, serialized and read back, configures a decoder with the encoder's codec, size and description |
| WebCodecs.WebCodecsSession.constructor | client/src/composables/useWebCodecs.ts:13-18 | no encoder, no decoder, nothing cached or emitted |
| WebCodecs.WebCodecsSession.InitEncoder | client/src/composables/useWebCodecs.ts:56-171 | a configured encoder with an empty cache, a keyframe every 2·framerate frames and a fresh frame count; a pending request survives |
| WebCodecs.WebCodecsSession.EncodeFrames | client/src/composables/useWebCodecs.ts:173-195 | the loop state follows `EncodeRun` over the frames read, and nothing runs once encoding was stopped |
| WebCodecs.WebCodecsSession.RequestKeyFrame | client/src/composables/useWebCodecs.ts:202-207 | the request is set only while encoding |
| WebCodecs.WebCodecsSession.OnEncoderOutput | client/src/composables/useWebCodecs.ts:94-137 | the cache and the emitted frames follow `EncoderOutput` |
| WebCodecs.WebCodecsSession.StopEncoder | client/src/composables/useWebCodecs.ts:210-230 | the encoding side is released, and a second call changes nothing more |
| WebCodecs.WebCodecsSession.InitDecoder | client/src/composables/useWebCodecs.ts:236-257 | a fresh unconfigured decoder; a config stored earlier is kept |
| WebCodecs.WebCodecsSession.DecodeFrame | client/src/composables/useWebCodecs.ts:260-305 | it is ignored without a decoder; otherwise the decoder follows `DecodeStep` |
| WebCodecs.WebCodecsSession.StopDecoder | client/src/composables/useWebCodecs.ts:308-320 | the decoder and its config are released, and a second call changes nothing more |
| WebCodecs.WebCodecsSession.SerializeFrame | client/src/composables/useWebCodecs.ts:323-354 | the buffer filled field by field is the wire image `Wire(f)` |
| ConferenceCodecs.ConferenceDecoders.constructor | client/src/composables/useConferenceWebCodecs.ts:10-13 | the three tables start empty |
| ConferenceCodecs.ConferenceDecoders.HasDecoder | client/src/composables/useConferenceWebCodecs.ts:117-119 | true iff the id has a decoder, which is iff it is active |
| ConferenceCodecs.ConferenceDecoders.StopDecoderForSharer | client/src/composables/useConferenceWebCodecs.ts:94-106 | the id leaves all three tables and is closed once; an unknown id changes nothing; other ids are untouched |
| ConferenceCodecs.ConferenceDecoders.InitDecoderForSharer | client/src/composables/useConferenceWebCodecs.ts:24-43 | any prior decoder for the id is closed, then one fresh decoder is registered and the id is active |
| ConferenceCodecs.ConferenceDecoders.DecodeFrameForSharer | client/src/composables/useConferenceWebCodecs.ts:46-91 | it is ignored for an id without a decoder; that id's decoder follows `DecodeStep`; no other id changes |
| ConferenceCodecs.ConferenceDecoders.StopAllDecoders | client/src/composables/useConferenceWebCodecs.ts:109-114 | every registered decoder is closed once, and all three tables end empty |
| SignalingServer.GetOrCreateRoom | server/src/index.ts:28-38 | an unknown id gets an empty classic room; every other entry stays |
| SignalingServer.WithMode | server/src/index.ts:83-85 | only an empty room takes the requested mode (classic by default) |
| SignalingServer.RequestStream | server/src/index.ts:160-166 | one `stream-requested` goes to the host exactly when the socket's room has a host |
| SignalingServer.Relay | server/src/index.ts:134-157 | the signal goes to the target unchanged, with the sender's id |
| SignalingServer.RequestPeerStream | server/src/index.ts:203-206 | the request goes to the target with the requester's id |
| SignalingServer.LeaveRoom | server/src/index.ts:53-76 | leaving removes no room but the old one and leaves every other room as it was; `LeaveRoomFrame`, `DepartedOk` and `LeaveEmitsToOldRoom` say the rest |
| SignalingServer.Entered | server/src/index.ts:82-123 | the room once the socket has joined; `EnteredJoins` and `JoinModeRule` characterise it |
| SignalingServer.JoinEmits | server/src/index.ts:87-123 | the joiner is always answered first, directly; `EnteredJoins` and `HostTakenRefused` say what it is told |
| SignalingServer.JoinRoom | server/src/index.ts:46-131 | corrected `join-room`: the target room is in the table afterwards and is the socket's current room; `JoinedIsMember` and `JoinRoomInv` say the rest |
| SignalingServer.JoinRoomAsWritten | server/src/index.ts:46-131 | `join-room` as written; `RejoinAsWrittenLosesRoom`, `AsWrittenAgreesOnRejoin` and `AsWrittenAgreesOtherwise` relate it to `JoinRoom` |
| SignalingServer.Disconnect | server/src/index.ts:209-253 | the socket's current room is forgotten and no room is created; `DisconnectRemoves` and `DisconnectInv` say the rest |
| SignalingServer.SetSharing | server/src/index.ts:169-200 | the current rooms and the set of rooms never change, and a non-participant changes nothing; `SharingOnlyForParticipants` says the rest |
| SignalingServer.DepartedEmpty | server/src/index.ts:65-67 | a conference room is left without participants iff the leaver was its only member |
| SignalingServer.ClassicEmptied | server/src/index.ts:246-249 | a classic room is left without host and viewers iff the leaver was its only member |
| SignalingServer.DepartedOk | server/src/index.ts:53-75 | leaving removes the socket and keeps the room sound, unless a conference room is left empty |
| SignalingServer.LeaveRoomFrame | server/src/index.ts:53-76 | leaving touches only the old room, and deletes it only when a conference room is left empty; a classic room stays |
| SignalingServer.LeavePreviousInv | server/src/index.ts:50-77 | leaving keeps the invariant, and the socket is a member of no room |
| SignalingServer.GetOrCreateRoomInv | server/src/index.ts:28-38 | creating a room keeps the invariant |
| SignalingServer.EnterRoomInv | server/src/index.ts:79-130 | entering a room keeps the invariant for a socket that is in no room |
| SignalingServer.JoinRoomInv | server/src/index.ts:46-131 | `join-room` keeps the invariant |
| SignalingServer.DisconnectInv | server/src/index.ts:209-253 | `disconnect` keeps the invariant and leaves the socket in no room |
| SignalingServer.SetSharingInv | server/src/index.ts:169-200 | `start-sharing`/`stop-sharing` keep the invariant |
| SignalingServer.LeaveEmitsToOldRoom | server/src/index.ts:59-71 | every leave notification goes to the previous room |
| SignalingServer.EnteredJoins | server/src/index.ts:87-123 | a conference joiner is a non-sharing participant; a viewer is a viewer; a would-be host holds the seat iff no error went back |
| SignalingServer.JoinedIsMember | server/src/index.ts:46-131 | after `join-room` the current room is the requested one, and the socket is in it in its requested role unless the host seat was taken |
| SignalingServer.JoinModeRule | server/src/index.ts:83-85 | the mode follows the request only for an empty room |
| SignalingServer.HostTakenRefused | server/src/index.ts:105-109 | a host join while another host exists emits only the error and leaves the room unchanged |
| SignalingServer.DisconnectRemoves | server/src/index.ts:209-253 | the socket is forgotten and in no room; its room goes iff nobody else is in it; `sharer-stopped` goes out iff it was sharing |
| SignalingServer.SharingOnlyForParticipants | server/src/index.ts:169-200 | sharing changes only a conference participant's flag; otherwise nothing changes |
| SignalingServer.RejoinAsWrittenLosesRoom | server/src/index.ts:48-77 | as written, a sole participant rejoining its conference room is told it joined while the room is gone from the table |
| SignalingServer.LeaveCommutesWithCreate | server/src/index.ts:48-77 | leaving one room and creating another commute |
| SignalingServer.AsWrittenAgreesOnRejoin | server/src/index.ts:48-77 | rejoining the current room behaves as the corrected handler unless that empties a conference room |
| SignalingServer.AsWrittenAgreesOtherwise | server/src/index.ts:46-131 | outside that one case, the handler as written and the corrected one agree exactly |
| SignalingServer.SignalingServer.constructor | server/src/index.ts:18 | the table is empty and satisfies the invariant |
| SignalingServer.SignalingServer.GetOrCreateRoomIn | server/src/index.ts:28-38 | the table becomes `GetOrCreateRoom` of the old one |
| SignalingServer.SignalingServer.LeaveRoomIn | server/src/index.ts:53-76 | the table and the emits follow `LeaveRoom` |
| SignalingServer.SignalingServer.LeavePreviousIn | server/src/index.ts:51-77 | the table and the emits follow `LeavePrevious` |
| SignalingServer.SignalingServer.EnterRoomIn | server/src/index.ts:79-130 | the table and the emits follow `EnterRoom` |
| SignalingServer.SignalingServer.EnterRoomObject | server/src/index.ts:82-130 | the room and the emits are `Entered` and `JoinEmits` |
| SignalingServer.SignalingServer.OnJoinRoom | server/src/index.ts:46-131 | the state and the emits follow the corrected `JoinRoom` |
| SignalingServer.SignalingServer.OnDisconnect | server/src/index.ts:209-253 | the state and the emits follow `Disconnect` |
| SignalingServer.SignalingServer.OnSetSharing | server/src/index.ts:169-200 | the state and the emits follow `SetSharing` |
| SignalingServer.SignalingServer.OnRequestStream | server/src/index.ts:160-166 | the state is unchanged, and the emits follow `RequestStream` |
| SignalingServer.SignalingServer.OnSignal | server/src/index.ts:134-157 | the state is unchanged, and one relay is emitted |
| SignalingServer.SignalingServer.OnRequestPeerStream | server/src/index.ts:203-206 | the state is unchanged, and one request is emitted |

## Left out

- Browser objects (`RTCPeerConnection`, `RTCDataChannel`, `VideoEncoder`, `VideoDecoder`, `EncodedVideoChunk`, `MediaStreamTrackProcessor`) are reduced to set membership, flags and logs.
  - The channel's `readyState` and `bufferedAmount` are inputs.
  - The encoder's state and queue size at each read are inputs.
- Offer/answer negotiation, ICE handling (`handleAnswer`, `addIceCandidate`) and the ICE server list are left out; they are foreign API calls with no table effect.
- `getConnectionCount`, `getConnectedPeers`, `checkCodecSupport`, `getSupportedCodecs` and the callback setters are left out; they are queries of browser state or callback slots.
- Floating point is not modelled. Timestamps and durations are opaque 8-byte fields, and only their falsiness is decided.
- async/await: each handler is one atomic step. `stopEncoder`, `stopDecoderForSharer` and the read loop are not interleaved with other handlers.
- The browser calls `configure`, `decode`, `encode` and `channel.send` are assumed to succeed. The model has no throw path for them, so it does not capture:
  - a decoder whose `configure` throws: the config is stored before the call (`decoderConfig`, `decoderConfigs`), yet the decoder stays unconfigured;
  - `channel.send` throwing inside `sendData`: `messageSeq` has already advanced and some records may be out, yet the call returns false;
  - `encode` throwing: the catch is outside the read loop, so the loop ends;
  - the catch path of `initEncoder`, where `configure` or the constructor fails and only `error` is set.
- The codec bytes read back by `deserializeFrame` go through `TextDecoder`, which drops a leading byte-order mark and turns invalid UTF-8 into U+FFFD. The model keeps the raw bytes, so it agrees with the source only on well-formed UTF-8 without a byte-order mark; the codec strings the encoder writes are ASCII.
- The read loop's `done` and reader-cancel paths are modelled as the end of the input list.
- ChunkTransport.RoundTrip: it needs payloads of at most 65535 · 16384 bytes and leaves sequence numbers modulo 2^32. Larger payloads wrap the u16 chunk index, as `DataView.setUint16` does, and do not reassemble.
- WebCodecs.RoundTrip: it needs a codec length below 2^32. Widths and heights are compared modulo 2^16, as `setUint16` stores them.
- SignalingServer.SignalingServer.OnJoinRoom: it follows the corrected `JoinRoom`, leaving before the lookup. On the input in "## Findings" (the sole participant of a conference room rejoins it) the handler as written, `JoinRoomAsWritten`, deletes the room and fills a detached object instead; elsewhere the two agree (`AsWrittenAgreesOtherwise`).
- WebCodecs.DeserializeFrame: it requires a 32-byte buffer. A shorter one makes the DataView reads throw, and there is no error path in the source.
- Socket.io room membership (`socket.join`/`socket.leave`) is not modelled. Emits are recorded as (target, message) pairs. `io.to(name)` targets a room or a socket id by name.
- The participant lists in `conference-state` and `joined` are sent as the participant map, not as an ordered array, so the array's order is not modelled.
- Server logging, the HTTP server and CORS set-up are left out.
- The Vue `ref`/`shallowRef` wrappers are plain fields. The session's refs are grouped into record-valued fields of one class.
- Order within a JS `Set`/`Map` is kept only where a loop walks it (`broadcastData` walks the channel map in insertion order). `stopAllDecoders` closes the decoders in some order, and the model proves each is closed exactly once.
- Room id `""` is falsy for `if (currentRoom)`, so a socket in that room is never taken out of it. The invariant `Inv` covers every other room.

## Findings

| source | as written | input that shows it | evidently intended | confidence | as-written member | corrected member |
|---|---|---|---|---|---|---|
| server/src/index.ts:48-77 | `join-room` fetches (or creates) the target room object before leaving the previous room; leaving a conference room deletes it when it becomes empty | socket "a", the sole participant of conference room "r", sends `join-room` for "r" again: "r" is deleted from `rooms`, yet "a" is sent `joined` and added to the detached room object; later joiners of "r" get a fresh empty room without "a" | leave the previous room first, then look up or create the target room, so the joiner ends up in a room that is in the table | not executed | SignalingServer.RejoinAsWrittenLosesRoom | SignalingServer.JoinedIsMember |

`SignalingServer.JoinRoomAsWritten` models the handler as written, and `SignalingServer.JoinRoom` models it corrected. The class method `OnJoinRoom` implements the corrected handler. `AsWrittenAgreesOtherwise` and `AsWrittenAgreesOnRejoin` show that the two differ only in the case above.
