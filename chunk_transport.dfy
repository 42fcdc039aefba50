/**
 * The chunked message transport of the peer connections
 * (client/src/composables/useWebRTC.ts): a payload is cut into 16 KiB
 * slices, each sent as a Chunk record, followed by one Complete record; the
 * receiver keeps the slices per peer and per sequence number and hands the
 * joined payload on once every slice has arrived.
 */
module ChunkTransport {
  import opened Types
  import opened ByteBuffers

  type PeerId = string

  const ChunkSize: nat := 16384
  const ChunkHeaderSize: nat := 7
  const CompleteRecordSize: nat := 13
  const MsgTypeChunk: byte := 0x01
  const MsgTypeComplete: byte := 0x02
  /** `sendData` refuses to queue more while the channel buffers more than 5 MiB. */
  const MaxBufferedAmount: nat := 5 * 1024 * 1024
  /** The largest payload whose chunk indices and chunk count fit their u16 fields. */
  const MaxPayload: nat := 65535 * 16384

  // ---------------------------------------------------------------------
  // Sending: the records of one message
  // ---------------------------------------------------------------------

  /** `Math.ceil(n / CHUNK_SIZE)`. */
  function TotalChunks(n: nat): nat
  {
    (n + 16383) / 16384
  }

  /** Bytes [i * 16384, min((i + 1) * 16384, n)) of the payload. */
  function Slice(data: Bytes, i: nat): Bytes
    requires i < TotalChunks(|data|)
  {
    data[i * 16384 .. Min((i + 1) * 16384, |data|)]
  }

  /** Chunk record: type 0x01, sequence (u32 LE), chunk index (u16 LE), then the slice. */
  function ChunkRecord(seqNo: nat, index: nat, slice: Bytes): Bytes
  {
    [MsgTypeChunk] + U32LE(seqNo) + U16LE(index) + slice
  }

  /**
   * Complete record: type 0x02, sequence, the chunk count written at offset 5
   * and again at offset 7, and the payload length at offset 9.
   */
  function CompleteRecord(seqNo: nat, totalChunks: nat, totalSize: nat): Bytes
  {
    [MsgTypeComplete] + U32LE(seqNo) + U16LE(totalChunks) + U16LE(totalChunks) + U32LE(totalSize)
  }

  function ChunkRecords(seqNo: nat, data: Bytes): (rs: seq<Bytes>)
    ensures |rs| == TotalChunks(|data|)
  {
    seq(TotalChunks(|data|), i requires 0 <= i < TotalChunks(|data|) => ChunkRecord(seqNo, i, Slice(data, i)))
  }

  /** Everything one successful `sendData` call puts on the channel, in order. */
  function SendRecords(seqNo: nat, data: Bytes): (rs: seq<Bytes>)
    ensures |rs| == TotalChunks(|data|) + 1
  {
    ChunkRecords(seqNo, data) + [CompleteRecord(seqNo, TotalChunks(|data|), |data|)]
  }

  // ---------------------------------------------------------------------
  // Receiving: parsing a record and the per-peer reassembly table
  // ---------------------------------------------------------------------

  /**
   * What `handleReceivedChunk` reads from a message. A message too short for
   * the DataView reads makes them throw (Truncated); a type byte other than
   * 0x01 and 0x02 is ignored.
   */
  datatype Inbound =
    | ChunkMsg(seqNo: nat, index: nat, payload: Bytes)
    | CompleteMsg(seqNo: nat, totalChunks: nat, totalSize: nat)
    | UnknownType
    | Truncated

  function Parse(msg: Bytes): (m: Inbound)
    ensures m.Truncated? <==> |msg| < ChunkHeaderSize || (msg[0] == MsgTypeComplete && |msg| < CompleteRecordSize)
    ensures m.ChunkMsg? <==> |msg| >= ChunkHeaderSize && msg[0] == MsgTypeChunk
    ensures m.ChunkMsg? ==> |m.payload| == |msg| - ChunkHeaderSize && m.seqNo < 0x1_0000_0000 && m.index < 0x1_0000
    ensures m.CompleteMsg? ==> m.seqNo < 0x1_0000_0000 && m.totalChunks < 0x1_0000 && m.totalSize < 0x1_0000_0000
  {
    if |msg| < ChunkHeaderSize then Truncated
    else if msg[0] == MsgTypeChunk then ChunkMsg(ReadU32LE(msg, 1), ReadU16LE(msg, 5), msg[ChunkHeaderSize..])
    else if msg[0] == MsgTypeComplete then
      if |msg| < CompleteRecordSize then Truncated
      else CompleteMsg(ReadU32LE(msg, 1), ReadU16LE(msg, 7), ReadU32LE(msg, 9))
    else UnknownType
  }

  /** The sparse `chunks` array of one sequence: chunk index -> slice. */
  type ChunkTable = map<nat, Bytes>

  /** One peer's receive buffer: sequence number -> chunk table. */
  type PeerBuffer = map<nat, ChunkTable>

  predicate AllPresent(chunks: ChunkTable, total: nat)
  {
    forall i :: 0 <= i < total ==> i in chunks
  }

  /** The slices 0 .. total-1 joined in index order. */
  function Joined(chunks: ChunkTable, total: nat): Bytes
    requires AllPresent(chunks, total)
  {
    if total == 0 then [] else Joined(chunks, total - 1) + chunks[total - 1]
  }

  function Zeros(n: nat): (r: Bytes)
    ensures |r| == n
  {
    seq(n, _ => 0)
  }

  /** The sequence number a Chunk or Complete record is about. */
  function SeqOf(m: Inbound): Option<nat>
  {
    match m
    case ChunkMsg(s, _, _) => Some(s)
    case CompleteMsg(s, _, _) => Some(s)
    case _ => None
  }

  datatype Receipt = Receipt(buffer: PeerBuffer, delivered: Option<Bytes>)

  /**
   * The effect of one message on a peer's receive buffer. A Complete record
   * whose slices are all present fills a fresh Uint8Array(totalSize): a
   * shorter join leaves trailing zeros, a longer one makes `set` throw and
   * nothing happens.
   */
  function Receive(buffer: PeerBuffer, msg: Bytes): Receipt
  {
    match Parse(msg)
    case ChunkMsg(s, i, p) =>
      var chunks: ChunkTable := if s in buffer then buffer[s] else map[];
      Receipt(buffer[s := chunks[i := p]], None)
    case CompleteMsg(s, t, size) =>
      if s !in buffer || !AllPresent(buffer[s], t) then Receipt(buffer, None)
      else
        var body := Joined(buffer[s], t);
        if |body| > size then Receipt(buffer, None)
        else Receipt(buffer - {s}, Some(body + Zeros(size - |body|)))
    case _ => Receipt(buffer, None)
  }

  datatype Feed = Feed(buffer: PeerBuffer, delivered: seq<Bytes>)

  /** Messages handled one after the other, in arrival order. */
  function FeedAll(buffer: PeerBuffer, msgs: seq<Bytes>): Feed
    decreases |msgs|
  {
    if msgs == [] then Feed(buffer, [])
    else
      var r := Receive(buffer, msgs[0]);
      var rest := FeedAll(r.buffer, msgs[1..]);
      Feed(rest.buffer, (if r.delivered.Some? then [r.delivered.value] else []) + rest.delivered)
  }

  /** The chunk records of one message, arriving in the order given by chunk index. */
  function ChunksInOrder(seqNo: nat, data: Bytes, order: seq<nat>): seq<Bytes>
    requires forall j :: 0 <= j < |order| ==> order[j] < TotalChunks(|data|)
  {
    seq(|order|, j requires 0 <= j < |order| => ChunkRecords(seqNo, data)[order[j]])
  }

  // ---------------------------------------------------------------------
  // Properties of the records
  // ---------------------------------------------------------------------

  /** The chunk count is the ceiling of n / 16384: the slices cover the payload and none is empty. */
  lemma TotalChunksIsCeiling(n: nat)
    ensures TotalChunks(n) * ChunkSize >= n
    ensures n > 0 ==> (TotalChunks(n) - 1) * ChunkSize < n
    ensures TotalChunks(n) == 0 <==> n == 0
  {
  }

  /** Every slice is 16384 bytes long except the last, which holds the rest (at least one byte). */
  lemma SliceLength(data: Bytes, i: nat)
    requires i < TotalChunks(|data|)
    ensures |Slice(data, i)| == Min(ChunkSize, |data| - i * ChunkSize) > 0
  {
    TotalChunksIsCeiling(|data|);
  }

  /** A chunk record parses back to its sequence number, index and slice (modulo the field widths). */
  lemma ParseChunkRecord(seqNo: nat, index: nat, slice: Bytes)
    ensures |ChunkRecord(seqNo, index, slice)| == ChunkHeaderSize + |slice|
    ensures Parse(ChunkRecord(seqNo, index, slice)) == ChunkMsg(seqNo % 0x1_0000_0000, index % 0x1_0000, slice)
  {
    var r := ChunkRecord(seqNo, index, slice);
    assert r[1..5] == U32LE(seqNo);
    assert r[5..7] == U16LE(index);
    ReadU32LEOfU32LE(seqNo, r, 1);
    ReadU16LEOfU16LE(index, r, 5);
    assert r[ChunkHeaderSize..] == slice;
  }

  /**
   * A Complete record is 13 bytes; the chunk count read at offset 7 (the one
   * the receiver uses) equals the one at offset 5, and it parses back to its fields.
   */
  lemma ParseCompleteRecord(seqNo: nat, totalChunks: nat, totalSize: nat)
    ensures |CompleteRecord(seqNo, totalChunks, totalSize)| == CompleteRecordSize
    ensures ReadU16LE(CompleteRecord(seqNo, totalChunks, totalSize), 5)
         == ReadU16LE(CompleteRecord(seqNo, totalChunks, totalSize), 7)
    ensures Parse(CompleteRecord(seqNo, totalChunks, totalSize))
         == CompleteMsg(seqNo % 0x1_0000_0000, totalChunks % 0x1_0000, totalSize % 0x1_0000_0000)
  {
    var r := CompleteRecord(seqNo, totalChunks, totalSize);
    assert r[1..5] == U32LE(seqNo);
    assert r[5..7] == U16LE(totalChunks);
    assert r[7..9] == U16LE(totalChunks);
    assert r[9..13] == U32LE(totalSize);
    ReadU32LEOfU32LE(seqNo, r, 1);
    ReadU16LEOfU16LE(totalChunks, r, 5);
    ReadU16LEOfU16LE(totalChunks, r, 7);
    ReadU32LEOfU32LE(totalSize, r, 9);
  }

  /**
   * One `sendData` call emits ceil(n / 16384) chunk records, record i
   * carrying chunk index i and bytes [i * 16384, min((i + 1) * 16384, n)),
   * then the Complete record with the chunk count and n.
   */
  lemma SendRecordsLayout(seqNo: nat, data: Bytes)
    requires |data| <= MaxPayload
    ensures |SendRecords(seqNo, data)| == TotalChunks(|data|) + 1
    ensures forall i :: 0 <= i < TotalChunks(|data|) ==>
      Parse(SendRecords(seqNo, data)[i])
        == ChunkMsg(seqNo % 0x1_0000_0000, i, data[i * ChunkSize .. Min((i + 1) * ChunkSize, |data|)])
    ensures Parse(SendRecords(seqNo, data)[TotalChunks(|data|)])
         == CompleteMsg(seqNo % 0x1_0000_0000, TotalChunks(|data|), |data|)
  {
    var rs := SendRecords(seqNo, data);
    var t := TotalChunks(|data|);
    forall i | 0 <= i < t
      ensures Parse(rs[i]) == ChunkMsg(seqNo % 0x1_0000_0000, i, data[i * ChunkSize .. Min((i + 1) * ChunkSize, |data|)])
    {
      assert rs[i] == ChunkRecords(seqNo, data)[i];
      ParseChunkRecordAt(seqNo, data, i);
    }
    assert rs[t] == CompleteRecord(seqNo, t, |data|);
    ParseCompleteRecordOf(seqNo, data);
  }

  /** Chunk record i of a payload that fits the u16 index parses back to index i and slice i. */
  lemma ParseChunkRecordAt(seqNo: nat, data: Bytes, i: nat)
    requires |data| <= MaxPayload && i < TotalChunks(|data|)
    ensures Parse(ChunkRecords(seqNo, data)[i]) == ChunkMsg(seqNo % 0x1_0000_0000, i, Slice(data, i))
  {
    assert TotalChunks(|data|) <= 65535;
    assert ChunkRecords(seqNo, data)[i] == ChunkRecord(seqNo, i, Slice(data, i));
    ParseChunkRecord(seqNo, i, Slice(data, i));
  }

  /** The Complete record of a payload that fits the u16 chunk count parses back to the count and the length. */
  lemma ParseCompleteRecordOf(seqNo: nat, data: Bytes)
    requires |data| <= MaxPayload
    ensures Parse(CompleteRecord(seqNo, TotalChunks(|data|), |data|))
         == CompleteMsg(seqNo % 0x1_0000_0000, TotalChunks(|data|), |data|)
  {
    var t := TotalChunks(|data|);
    assert t <= 65535;
    ParseCompleteRecord(seqNo, t, |data|);
  }

  // ---------------------------------------------------------------------
  // Properties of reassembly
  // ---------------------------------------------------------------------

  /** A message changes the entry of its own sequence number at most; every other entry is untouched. */
  lemma ReceiveTouchesOnlyItsSequence(buffer: PeerBuffer, msg: Bytes, s: nat)
    requires SeqOf(Parse(msg)) != Some(s)
    ensures s in Receive(buffer, msg).buffer <==> s in buffer
    ensures s in buffer ==> Receive(buffer, msg).buffer[s] == buffer[s]
  {
  }

  /** A Complete record delivers something only when every slice is present, and then exactly totalSize bytes. */
  lemma ReceiveDeliversOnlyComplete(buffer: PeerBuffer, msg: Bytes)
    requires Receive(buffer, msg).delivered.Some?
    ensures Parse(msg).CompleteMsg?
    ensures Parse(msg).seqNo in buffer && AllPresent(buffer[Parse(msg).seqNo], Parse(msg).totalChunks)
    ensures |Receive(buffer, msg).delivered.value| == Parse(msg).totalSize
    ensures Receive(buffer, msg).buffer == buffer - {Parse(msg).seqNo}
  {
  }

  /** A Complete record with a slice missing delivers nothing and leaves the entry pending. */
  lemma IncompleteStaysPending(buffer: PeerBuffer, seqNo: nat, totalChunks: nat, totalSize: nat, missing: nat)
    requires seqNo < 0x1_0000_0000 && totalChunks < 0x1_0000 && totalSize < 0x1_0000_0000
    requires missing < totalChunks
    requires seqNo in buffer && missing !in buffer[seqNo]
    ensures Receive(buffer, CompleteRecord(seqNo, totalChunks, totalSize)) == Receipt(buffer, None)
  {
    ParseCompleteRecord(seqNo, totalChunks, totalSize);
    assert Parse(CompleteRecord(seqNo, totalChunks, totalSize)) == CompleteMsg(seqNo, totalChunks, totalSize);
    assert !AllPresent(buffer[seqNo], totalChunks);
  }

  /** Handling `a` and then `b` is handling `a + b`. */
  lemma FeedAllAppend(buffer: PeerBuffer, a: seq<Bytes>, b: seq<Bytes>)
    ensures FeedAll(buffer, a + b)
         == Feed(FeedAll(FeedAll(buffer, a).buffer, b).buffer,
                 FeedAll(buffer, a).delivered + FeedAll(FeedAll(buffer, a).buffer, b).delivered)
  {
    FeedAllAppendBuffer(buffer, a, b);
    FeedAllAppendDelivered(buffer, a, b);
  }

  /** The buffer after `a + b` is the buffer after `a` then `b`. */
  lemma {:induction false} FeedAllAppendBuffer(buffer: PeerBuffer, a: seq<Bytes>, b: seq<Bytes>)
    ensures FeedAll(buffer, a + b).buffer == FeedAll(FeedAll(buffer, a).buffer, b).buffer
    decreases |a|
  {
    if a == [] {
      assert a + b == b;
    } else {
      assert (a + b)[0] == a[0];
      assert (a + b)[1..] == a[1..] + b;
      FeedAllAppendBuffer(Receive(buffer, a[0]).buffer, a[1..], b);
    }
  }

  /** What `a + b` delivers is what `a` delivers, then what `b` delivers after it. */
  lemma {:induction false} FeedAllAppendDelivered(buffer: PeerBuffer, a: seq<Bytes>, b: seq<Bytes>)
    ensures FeedAll(buffer, a + b).delivered
         == FeedAll(buffer, a).delivered + FeedAll(FeedAll(buffer, a).buffer, b).delivered
    decreases |a|
  {
    if a == [] {
      assert a + b == b;
    } else {
      var r := Receive(buffer, a[0]);
      var d0 := if r.delivered.Some? then [r.delivered.value] else [];
      assert (a + b)[0] == a[0];
      assert (a + b)[1..] == a[1..] + b;
      FeedAllAppendDelivered(r.buffer, a[1..], b);
      var mid := FeedAll(r.buffer, a[1..]);
      var last := FeedAll(mid.buffer, b);
      assert FeedAll(buffer, a + b).delivered == d0 + (mid.delivered + last.delivered);
      assert d0 + (mid.delivered + last.delivered) == (d0 + mid.delivered) + last.delivered;
    }
  }

  /**
   * Chunk records of one message, in any order and with any repetition,
   * store slice i at index i of the message's entry; nothing is delivered and
   * no other sequence is touched.
   */
  lemma {:induction false} StoreChunks(buffer: PeerBuffer, seqNo: nat, data: Bytes, order: seq<nat>)
    requires |data| <= MaxPayload
    requires forall j :: 0 <= j < |order| ==> order[j] < TotalChunks(|data|)
    ensures var f := FeedAll(buffer, ChunksInOrder(seqNo, data, order));
            var s := seqNo % 0x1_0000_0000;
            var base := if s in buffer then buffer[s] else map[];
            && f.delivered == []
            && (forall x :: x != s ==> (x in f.buffer <==> x in buffer))
            && (forall x :: x != s && x in buffer ==> f.buffer[x] == buffer[x])
            && (order == [] ==> f.buffer == buffer)
            && (order != [] ==>
                  && s in f.buffer
                  && (forall i :: i in f.buffer[s] <==> i in base || i in order)
                  && (forall i :: i in order ==> f.buffer[s][i] == Slice(data, i))
                  && (forall i :: i in f.buffer[s] && i !in order ==> f.buffer[s][i] == base[i]))
    decreases |order|
  {
    var msgs := ChunksInOrder(seqNo, data, order);
    var s := seqNo % 0x1_0000_0000;
    var base := if s in buffer then buffer[s] else map[];
    if order != [] {
      var o := order[0];
      assert msgs[0] == ChunkRecords(seqNo, data)[o];
      ParseChunkRecordAt(seqNo, data, o);
      var buffer1 := buffer[s := base[o := Slice(data, o)]];
      assert Receive(buffer, msgs[0]) == Receipt(buffer1, None);
      assert msgs[1..] == ChunksInOrder(seqNo, data, order[1..]);
      StoreChunks(buffer1, seqNo, data, order[1..]);
      var f := FeedAll(buffer, msgs);
      assert f == FeedAll(buffer1, msgs[1..]);
      forall i | i in order
        ensures f.buffer[s][i] == Slice(data, i)
      {
        if i != o { assert i in order[1..]; }
      }
    }
  }

  /** Joining slices 0 .. t-1 of a payload gives its first min(t * 16384, n) bytes. */
  lemma {:induction false} JoinedSlices(chunks: ChunkTable, data: Bytes, t: nat)
    requires t <= TotalChunks(|data|)
    requires forall i :: 0 <= i < t ==> i in chunks && chunks[i] == Slice(data, i)
    ensures AllPresent(chunks, t)
    ensures Joined(chunks, t) == data[..Min(t * ChunkSize, |data|)]
  {
    if t > 0 {
      TotalChunksIsCeiling(|data|);
      JoinedSlices(chunks, data, t - 1);
      assert (t - 1) * ChunkSize <= |data|;
      assert data[..Min((t - 1) * ChunkSize, |data|)] + Slice(data, t - 1) == data[..Min(t * ChunkSize, |data|)];
    }
  }

  /**
   * However the chunk records of a non-empty message arrive before its
   * Complete record, reassembly delivers exactly the original bytes and
   * removes only that message's entry.
   */
  lemma ReassembleAnyOrder(buffer: PeerBuffer, seqNo: nat, data: Bytes, order: seq<nat>)
    requires 1 <= |data| <= MaxPayload
    requires forall j :: 0 <= j < |order| ==> order[j] < TotalChunks(|data|)
    requires forall i :: 0 <= i < TotalChunks(|data|) ==> i in order
    ensures FeedAll(buffer, ChunksInOrder(seqNo, data, order) + [CompleteRecord(seqNo, TotalChunks(|data|), |data|)])
         == Feed(buffer - {seqNo % 0x1_0000_0000}, [data])
  {
    var t := TotalChunks(|data|);
    var s := seqNo % 0x1_0000_0000;
    var chunks := ChunksInOrder(seqNo, data, order);
    TotalChunksIsCeiling(|data|);
    assert 0 in order;
    StoreChunks(buffer, seqNo, data, order);
    var f := FeedAll(buffer, chunks);
    CompleteAfterChunks(f.buffer, seqNo, data);
    assert f.buffer - {s} == buffer - {s};
    FeedAllAppend(buffer, chunks, [CompleteRecord(seqNo, t, |data|)]);
  }

  /** The Complete record of a message whose slices are all stored delivers the message and drops its entry. */
  lemma CompleteAfterChunks(buffer: PeerBuffer, seqNo: nat, data: Bytes)
    requires 1 <= |data| <= MaxPayload
    requires seqNo % 0x1_0000_0000 in buffer
    requires forall i :: 0 <= i < TotalChunks(|data|) ==>
      i in buffer[seqNo % 0x1_0000_0000] && buffer[seqNo % 0x1_0000_0000][i] == Slice(data, i)
    ensures FeedAll(buffer, [CompleteRecord(seqNo, TotalChunks(|data|), |data|)])
         == Feed(buffer - {seqNo % 0x1_0000_0000}, [data])
  {
    var complete := CompleteRecord(seqNo, TotalChunks(|data|), |data|);
    CompleteReceived(buffer, seqNo, data);
    assert FeedAll(buffer, [complete]) == Feed(buffer - {seqNo % 0x1_0000_0000}, [data] + []);
  }

  /** Receiving that Complete record: the joined slices are the whole payload, with no zero padding. */
  lemma CompleteReceived(buffer: PeerBuffer, seqNo: nat, data: Bytes)
    requires 1 <= |data| <= MaxPayload
    requires seqNo % 0x1_0000_0000 in buffer
    requires forall i :: 0 <= i < TotalChunks(|data|) ==>
      i in buffer[seqNo % 0x1_0000_0000] && buffer[seqNo % 0x1_0000_0000][i] == Slice(data, i)
    ensures Receive(buffer, CompleteRecord(seqNo, TotalChunks(|data|), |data|))
         == Receipt(buffer - {seqNo % 0x1_0000_0000}, Some(data))
  {
    var t := TotalChunks(|data|);
    var s := seqNo % 0x1_0000_0000;
    TotalChunksIsCeiling(|data|);
    JoinedSlices(buffer[s], data, t);
    assert data[..Min(t * ChunkSize, |data|)] == data;
    ParseCompleteRecordOf(seqNo, data);
    assert data + Zeros(0) == data;
  }

  /**
   * Round trip: the records of one `sendData` call, handled in order by a
   * peer that has a receive buffer, deliver exactly the sent bytes.
   */
  lemma RoundTrip(buffer: PeerBuffer, seqNo: nat, data: Bytes)
    requires 1 <= |data| <= MaxPayload
    ensures FeedAll(buffer, SendRecords(seqNo, data)) == Feed(buffer - {seqNo % 0x1_0000_0000}, [data])
  {
    var t := TotalChunks(|data|);
    var order := seq(t, i => i);
    assert ChunksInOrder(seqNo, data, order) == ChunkRecords(seqNo, data);
    forall i | 0 <= i < t ensures i in order { assert order[i] == i; }
    ReassembleAnyOrder(buffer, seqNo, data, order);
  }

  /**
   * An empty payload is sent as a lone Complete record with chunk count 0;
   * a receiver with no entry for that sequence delivers nothing.
   */
  lemma EmptyPayload(buffer: PeerBuffer, seqNo: nat)
    requires seqNo % 0x1_0000_0000 !in buffer
    ensures SendRecords(seqNo, []) == [CompleteRecord(seqNo, 0, 0)]
    ensures FeedAll(buffer, SendRecords(seqNo, [])) == Feed(buffer, [])
  {
    ParseCompleteRecord(seqNo, 0, 0);
    assert FeedAll(buffer, SendRecords(seqNo, [])) == Feed(Receive(buffer, CompleteRecord(seqNo, 0, 0)).buffer, []);
  }

  // ---------------------------------------------------------------------
  // The transport object: connection, channel and buffer tables
  // ---------------------------------------------------------------------

  /** `RTCDataChannel.readyState`. */
  datatype ReadyState = ChannelConnecting | Open | Closing | Closed

  /** What `sendData` reads from the channel object; the browser owns both values. */
  datatype ChannelStatus = ChannelStatus(readyState: ReadyState, bufferedAmount: nat)

  /** `RTCPeerConnection.connectionState`. */
  datatype PcState = PcNew | PcConnecting | PcConnected | PcDisconnected | PcFailed | PcClosed

  datatype TransportError = ConnectionFailed

  /** One record handed to `channel.send`. */
  datatype Outbound = Outbound(peer: PeerId, message: Bytes)

  /** One payload handed to the `onDataReceived` callback. */
  datatype Delivery = Delivery(peer: PeerId, payload: Bytes)

  predicate CanSend(channel: ChannelStatus)
  {
    channel.readyState == Open && channel.bufferedAmount <= MaxBufferedAmount
  }

  /** The records of one message, all addressed to `peer`. */
  function Addressed(peer: PeerId, records: seq<Bytes>): (out: seq<Outbound>)
    ensures |out| == |records|
  {
    seq(|records|, j requires 0 <= j < |records| => Outbound(peer, records[j]))
  }

  /** The keys of a JS Map are distinct. */
  predicate Distinct(keys: seq<PeerId>)
  {
    forall i, j :: 0 <= i < j < |keys| ==> keys[i] != keys[j]
  }

  /** `Map.set` on the key list of a JS Map: a new key goes last, an existing key keeps its place. */
  function WithKey(keys: seq<PeerId>, p: PeerId): (r: seq<PeerId>)
    ensures forall q :: q in r <==> q in keys || q == p
    ensures Distinct(keys) ==> Distinct(r)
  {
    if p in keys then keys else keys + [p]
  }

  /** `Map.delete` on the key list of a JS Map. */
  function WithoutKey(keys: seq<PeerId>, p: PeerId): (r: seq<PeerId>)
    ensures forall q :: q in r <==> q in keys && q != p
    ensures Distinct(keys) ==> Distinct(r)
  {
    if keys == [] then []
    else
      var rest := WithoutKey(keys[1..], p);
      assert Distinct(keys) ==> Distinct(rest) && keys[0] !in rest by {
        if Distinct(keys) {
          DistinctTail(keys);
        }
      }
      (if keys[0] == p then [] else [keys[0]]) + rest
  }

  lemma DistinctTail(keys: seq<PeerId>)
    requires Distinct(keys) && keys != []
    ensures Distinct(keys[1..]) && keys[0] !in keys[1..]
  {
    forall i, j | 0 <= i < j < |keys| - 1 ensures keys[1..][i] != keys[1..][j] {
      assert keys[1..][i] == keys[i + 1] && keys[1..][j] == keys[j + 1];
    }
  }

  /** The number of peers in `peers` whose channel accepts a message. */
  function SendableCount(peers: seq<PeerId>, status: PeerId -> ChannelStatus): (n: nat)
    ensures n <= |peers|
  {
    if peers == [] then 0
    else SendableCount(peers[..|peers| - 1], status) + (if CanSend(status(peers[|peers| - 1])) then 1 else 0)
  }

  datatype Broadcast = Broadcast(out: seq<Outbound>, nextSeq: nat)

  /** The records of one `sendData` of `data`, for each sequence number. */
  function RecordsOf(data: Bytes): nat -> seq<Bytes>
  {
    seqNo => SendRecords(seqNo, data)
  }

  /** Every message is sent as count+1 records, whatever its sequence number. */
  lemma RecordsOfLength(data: Bytes)
    ensures forall s :: |RecordsOf(data)(s)| == TotalChunks(|data|) + 1
  {
    forall s: nat ensures |SendRecords(s, data)| == TotalChunks(|data|) + 1 {
      assert |ChunkRecords(s, data)| == TotalChunks(|data|);
    }
  }

  /**
   * `broadcastData`: `sendData` to every channel in the map's order; each
   * channel that accepts takes the next sequence number and is sent the
   * records built under it. `broadcastData` builds them with `RecordsOf`;
   * the lemmas below hold for any record builder.
   */
  function BroadcastOutput(peers: seq<PeerId>, status: PeerId -> ChannelStatus, seqNo: nat, records: nat -> seq<Bytes>): (b: Broadcast)
    ensures b.nextSeq == seqNo + SendableCount(peers, status)
  {
    if peers == [] then Broadcast([], seqNo)
    else
      var prev := BroadcastOutput(peers[..|peers| - 1], status, seqNo, records);
      var p := peers[|peers| - 1];
      if CanSend(status(p)) then
        Broadcast(prev.out + Addressed(p, records(prev.nextSeq)), prev.nextSeq + 1)
      else prev
  }

  lemma MulSucc(k: nat, m: nat)
    ensures (k + 1) * m == k * m + m
  {
  }

  lemma MulNat(k: nat, m: nat)
    ensures 0 <= k * m
  {
  }

  lemma SliceOfPrefix<T>(a: seq<T>, b: seq<T>, lo: nat, hi: nat)
    requires lo <= hi <= |a|
    ensures (a + b)[lo..hi] == a[lo..hi]
  {
  }

  lemma SliceOfSuffix<T>(a: seq<T>, b: seq<T>)
    ensures (a + b)[|a|..|a| + |b|] == b
  {
  }

  lemma {:induction false} BroadcastLength(peers: seq<PeerId>, status: PeerId -> ChannelStatus, seqNo: nat, records: nat -> seq<Bytes>, m: nat)
    requires forall s :: |records(s)| == m
    ensures |BroadcastOutput(peers, status, seqNo, records).out| == SendableCount(peers, status) * m
  {
    if peers != [] {
      var ps := peers[..|peers| - 1];
      BroadcastLength(ps, status, seqNo, records, m);
      if CanSend(status(peers[|peers| - 1])) {
        MulSucc(SendableCount(ps, status), m);
      }
    }
  }

  lemma {:induction false} BroadcastBlock(peers: seq<PeerId>, status: PeerId -> ChannelStatus, seqNo: nat, records: nat -> seq<Bytes>, m: nat, k: nat)
    requires forall s :: |records(s)| == m
    requires k < |peers| && CanSend(status(peers[k]))
    ensures var out := BroadcastOutput(peers, status, seqNo, records).out;
      var c := SendableCount(peers[..k], status);
      c * m + m <= |out| && out[c * m..c * m + m] == Addressed(peers[k], records(seqNo + c))
  {
    var out := BroadcastOutput(peers, status, seqNo, records).out;
    var ps := peers[..|peers| - 1];
    var prev := BroadcastOutput(ps, status, seqNo, records);
    var c := SendableCount(peers[..k], status);
    MulNat(c, m);
    var lo: nat, hi: nat := c * m, c * m + m;
    if k == |peers| - 1 {
      assert peers[..k] == ps;
      BroadcastLength(ps, status, seqNo, records, m);
      var block := Addressed(peers[k], records(prev.nextSeq));
      assert |prev.out| == lo && |block| == m;
      assert out == prev.out + block;
      SliceOfSuffix(prev.out, block);
    } else {
      assert ps[k] == peers[k] && ps[..k] == peers[..k];
      BroadcastBlock(ps, status, seqNo, records, m, k);
      assert hi <= |prev.out| && prev.out[lo..hi] == Addressed(peers[k], records(seqNo + c));
      if CanSend(status(peers[|peers| - 1])) {
        var last := Addressed(peers[|peers| - 1], records(prev.nextSeq));
        assert out == prev.out + last;
        SliceOfPrefix(prev.out, last, lo, hi);
      } else {
        assert out == prev.out;
      }
    }
  }

  lemma {:induction false} BroadcastOnlyAccepting(peers: seq<PeerId>, status: PeerId -> ChannelStatus, seqNo: nat, records: nat -> seq<Bytes>, j: nat)
    requires j < |BroadcastOutput(peers, status, seqNo, records).out|
    ensures var o := BroadcastOutput(peers, status, seqNo, records).out[j];
      o.peer in peers && CanSend(status(o.peer))
  {
    var ps := peers[..|peers| - 1];
    var prev := BroadcastOutput(ps, status, seqNo, records);
    if j < |prev.out| {
      BroadcastOnlyAccepting(ps, status, seqNo, records, j);
      assert prev.out[j].peer in ps;
    }
  }

  /** The records sent to peer `q`, in the order they were sent. */
  function RecordsTo(out: seq<Outbound>, q: PeerId): seq<Bytes>
  {
    if out == [] then []
    else RecordsTo(out[..|out| - 1], q) + (if out[|out| - 1].peer == q then [out[|out| - 1].message] else [])
  }

  lemma {:induction false} RecordsToAppend(a: seq<Outbound>, b: seq<Outbound>, q: PeerId)
    ensures RecordsTo(a + b, q) == RecordsTo(a, q) + RecordsTo(b, q)
    decreases |b|
  {
    if b != [] {
      assert (a + b)[..|a + b| - 1] == a + b[..|b| - 1];
      RecordsToAppend(a, b[..|b| - 1], q);
    } else {
      assert a + b == a;
    }
  }

  lemma {:induction false} RecordsToAddressed(p: PeerId, records: seq<Bytes>, q: PeerId)
    ensures RecordsTo(Addressed(p, records), q) == if p == q then records else []
    decreases |records|
  {
    if records != [] {
      var init := records[..|records| - 1];
      assert Addressed(p, records)[..|records| - 1] == Addressed(p, init);
      RecordsToAddressed(p, init, q);
      assert init + [records[|records| - 1]] == records;
    }
  }

  lemma {:induction false} BroadcastSkipsOthers(peers: seq<PeerId>, status: PeerId -> ChannelStatus, seqNo: nat, records: nat -> seq<Bytes>, q: PeerId)
    requires q !in peers
    ensures RecordsTo(BroadcastOutput(peers, status, seqNo, records).out, q) == []
  {
    if peers != [] {
      var ps := peers[..|peers| - 1];
      var p := peers[|peers| - 1];
      var prev := BroadcastOutput(ps, status, seqNo, records);
      assert q !in ps && q != p;
      BroadcastSkipsOthers(ps, status, seqNo, records, q);
      if CanSend(status(p)) {
        RecordsToAppend(prev.out, Addressed(p, records(prev.nextSeq)), q);
        RecordsToAddressed(p, records(prev.nextSeq), q);
      }
    }
  }

  /** What the last peer of a broadcast adds to the records for `q`. */
  lemma BroadcastLastStep(peers: seq<PeerId>, status: PeerId -> ChannelStatus, seqNo: nat, records: nat -> seq<Bytes>, q: PeerId)
    requires peers != []
    ensures var p := peers[|peers| - 1];
      var prev := BroadcastOutput(peers[..|peers| - 1], status, seqNo, records);
      RecordsTo(BroadcastOutput(peers, status, seqNo, records).out, q)
        == RecordsTo(prev.out, q) + (if CanSend(status(p)) && p == q then records(prev.nextSeq) else [])
  {
    var p := peers[|peers| - 1];
    var prev := BroadcastOutput(peers[..|peers| - 1], status, seqNo, records);
    if CanSend(status(p)) {
      RecordsToAppend(prev.out, Addressed(p, records(prev.nextSeq)), q);
      RecordsToAddressed(p, records(prev.nextSeq), q);
    } else {
      assert RecordsTo(prev.out, q) + [] == RecordsTo(prev.out, q);
    }
  }

  /** Dropping the last key keeps the rest distinct, and the last key is not among them. */
  lemma DistinctInit(keys: seq<PeerId>)
    requires Distinct(keys) && keys != []
    ensures Distinct(keys[..|keys| - 1]) && keys[|keys| - 1] !in keys[..|keys| - 1]
  {
  }

  lemma {:induction false} BroadcastRecordsTo(peers: seq<PeerId>, status: PeerId -> ChannelStatus, seqNo: nat, records: nat -> seq<Bytes>, k: nat)
    requires Distinct(peers) && k < |peers|
    ensures RecordsTo(BroadcastOutput(peers, status, seqNo, records).out, peers[k])
      == if CanSend(status(peers[k])) then records(seqNo + SendableCount(peers[..k], status)) else []
  {
    var ps := peers[..|peers| - 1];
    var q := peers[k];
    DistinctInit(peers);
    BroadcastLastStep(peers, status, seqNo, records, q);
    if k == |peers| - 1 {
      assert peers[..k] == ps;
      BroadcastSkipsOthers(ps, status, seqNo, records, q);
    } else {
      assert ps[k] == q && ps[..k] == peers[..k];
      BroadcastRecordsTo(ps, status, seqNo, records, k);
    }
  }

  class PeerTransport {
    /** Peers with an RTCPeerConnection. */
    var peerConnections: set<PeerId>
    /** Peers with a data channel, in the insertion order of the channel map. */
    var dataChannels: seq<PeerId>
    var receiveBuffers: map<PeerId, PeerBuffer>
    var messageSeq: nat
    var connectionState: ConnectionState
    var error: Option<TransportError>
    /** Every record passed to `channel.send`, oldest first. */
    var sent: seq<Outbound>
    /** Every payload passed to `onDataReceived`, oldest first. */
    var delivered: seq<Delivery>

    /** A data channel always has a receive buffer, and a buffer belongs to a live connection or channel. */
    ghost predicate Valid()
      reads this
    {
      && (forall p :: p in dataChannels ==> p in receiveBuffers)
      && (forall p :: p in receiveBuffers ==> p in peerConnections || p in dataChannels)
      && Distinct(dataChannels)
    }

    constructor()
      ensures Valid()
      ensures peerConnections == {} && dataChannels == [] && receiveBuffers == map[]
      ensures messageSeq == 0 && connectionState == Disconnected && error == None
      ensures sent == [] && delivered == []
    {
      peerConnections := {};
      dataChannels := [];
      receiveBuffers := map[];
      messageSeq := 0;
      connectionState := Disconnected;
      error := None;
      sent := [];
      delivered := [];
    }

    /** The table effects of `createPeerConnection`: the connection is recorded and its buffer reset. */
    method CreatePeerConnection(peer: PeerId)
      requires Valid()
      modifies this
      ensures Valid()
      ensures peerConnections == old(peerConnections) + {peer}
      ensures receiveBuffers == old(receiveBuffers)[peer := map[]]
      ensures dataChannels == old(dataChannels) && messageSeq == old(messageSeq)
      ensures connectionState == old(connectionState) && error == old(error)
      ensures sent == old(sent) && delivered == old(delivered)
    {
      peerConnections := peerConnections + {peer};
      receiveBuffers := receiveBuffers[peer := map[]];
    }

    /** `setupDataChannel`: the channel is recorded; a buffer is created only if the peer has none. */
    method SetupDataChannel(peer: PeerId)
      requires Valid()
      modifies this
      ensures Valid()
      ensures dataChannels == WithKey(old(dataChannels), peer)
      ensures receiveBuffers == if peer in old(receiveBuffers) then old(receiveBuffers) else old(receiveBuffers)[peer := map[]]
      ensures peerConnections == old(peerConnections) && messageSeq == old(messageSeq)
      ensures connectionState == old(connectionState) && error == old(error)
      ensures sent == old(sent) && delivered == old(delivered)
    {
      dataChannels := WithKey(dataChannels, peer);
      if peer !in receiveBuffers {
        receiveBuffers := receiveBuffers[peer := map[]];
      }
    }

    /** The table effects of `createOffer`: reuse or create the connection, open a channel, go to connecting. */
    method CreateOffer(peer: PeerId)
      requires Valid()
      modifies this
      ensures Valid()
      ensures peerConnections == old(peerConnections) + {peer}
      ensures dataChannels == WithKey(old(dataChannels), peer)
      ensures receiveBuffers == if peer in old(peerConnections) && peer in old(receiveBuffers)
                                then old(receiveBuffers) else old(receiveBuffers)[peer := map[]]
      ensures connectionState == Connecting
      ensures messageSeq == old(messageSeq) && error == old(error)
      ensures sent == old(sent) && delivered == old(delivered)
    {
      if peer !in peerConnections {
        CreatePeerConnection(peer);
      }
      SetupDataChannel(peer);
      connectionState := Connecting;
    }

    /** The table effects of `handleOffer`: reuse or create the connection, go to connecting. */
    method HandleOffer(peer: PeerId)
      requires Valid()
      modifies this
      ensures Valid()
      ensures peerConnections == old(peerConnections) + {peer}
      ensures receiveBuffers == if peer in old(peerConnections) then old(receiveBuffers) else old(receiveBuffers)[peer := map[]]
      ensures connectionState == Connecting
      ensures dataChannels == old(dataChannels) && messageSeq == old(messageSeq) && error == old(error)
      ensures sent == old(sent) && delivered == old(delivered)
    {
      if peer !in peerConnections {
        CreatePeerConnection(peer);
      }
      connectionState := Connecting;
    }

    /** `cleanupPeer` (and `closePeer`): only this peer's channel, connection and buffer go. */
    method CleanupPeer(peer: PeerId)
      requires Valid()
      modifies this
      ensures Valid()
      ensures dataChannels == WithoutKey(old(dataChannels), peer)
      ensures peerConnections == old(peerConnections) - {peer}
      ensures receiveBuffers == old(receiveBuffers) - {peer}
      ensures messageSeq == old(messageSeq) && connectionState == old(connectionState) && error == old(error)
      ensures sent == old(sent) && delivered == old(delivered)
    {
      dataChannels := WithoutKey(dataChannels, peer);
      peerConnections := peerConnections - {peer};
      receiveBuffers := receiveBuffers - {peer};
    }

    /** `closePeer`: the same table effects as `cleanupPeer`. */
    method ClosePeer(peer: PeerId)
      requires Valid()
      modifies this
      ensures Valid()
      ensures dataChannels == WithoutKey(old(dataChannels), peer)
      ensures peerConnections == old(peerConnections) - {peer}
      ensures receiveBuffers == old(receiveBuffers) - {peer}
      ensures messageSeq == old(messageSeq) && connectionState == old(connectionState) && error == old(error)
      ensures sent == old(sent) && delivered == old(delivered)
    {
      CleanupPeer(peer);
    }

    /** `closeAll`: every table is emptied and the state returns to disconnected. */
    method CloseAll()
      requires Valid()
      modifies this
      ensures Valid()
      ensures dataChannels == [] && peerConnections == {} && receiveBuffers == map[]
      ensures connectionState == Disconnected
      ensures messageSeq == old(messageSeq) && error == old(error)
      ensures sent == old(sent) && delivered == old(delivered)
    {
      dataChannels := [];
      peerConnections := {};
      receiveBuffers := map[];
      connectionState := Disconnected;
    }

    /** The channel's `onclose`: its channel entry and its buffer go; the connection stays. */
    method OnChannelClose(peer: PeerId)
      requires Valid()
      modifies this
      ensures Valid()
      ensures dataChannels == WithoutKey(old(dataChannels), peer)
      ensures receiveBuffers == old(receiveBuffers) - {peer}
      ensures peerConnections == old(peerConnections) && messageSeq == old(messageSeq)
      ensures connectionState == old(connectionState) && error == old(error)
      ensures sent == old(sent) && delivered == old(delivered)
    {
      dataChannels := WithoutKey(dataChannels, peer);
      receiveBuffers := receiveBuffers - {peer};
    }

    /**
     * `onconnectionstatechange`: connected sets the state; failed records the
     * error and tears the peer down; disconnected and closed tear it down.
     */
    method OnConnectionStateChange(peer: PeerId, state: PcState)
      requires Valid()
      modifies this
      ensures Valid()
      ensures connectionState == match state
        case PcConnected => Connected
        case PcFailed => Failed
        case PcDisconnected => Disconnected
        case PcClosed => Disconnected
        case _ => old(connectionState)
      ensures error == if state == PcFailed then Some(ConnectionFailed) else old(error)
      ensures state in {PcFailed, PcDisconnected, PcClosed} ==>
        && dataChannels == WithoutKey(old(dataChannels), peer)
        && peerConnections == old(peerConnections) - {peer}
        && receiveBuffers == old(receiveBuffers) - {peer}
      ensures state !in {PcFailed, PcDisconnected, PcClosed} ==>
        && dataChannels == old(dataChannels)
        && peerConnections == old(peerConnections)
        && receiveBuffers == old(receiveBuffers)
      ensures messageSeq == old(messageSeq) && sent == old(sent) && delivered == old(delivered)
    {
      if state == PcConnected {
        connectionState := Connected;
      } else if state == PcFailed {
        connectionState := Failed;
        error := Some(ConnectionFailed);
        CleanupPeer(peer);
      } else if state == PcDisconnected || state == PcClosed {
        connectionState := Disconnected;
        CleanupPeer(peer);
      }
    }

    /** The presence check of the Complete branch: every index 0 .. total-1 holds a slice. */
    static method CheckComplete(chunks: ChunkTable, total: nat) returns (complete: bool)
      ensures complete <==> AllPresent(chunks, total)
    {
      complete := true;
      var i := 0;
      while i < total
        invariant 0 <= i <= total
        invariant forall k :: 0 <= k < i ==> k in chunks
      {
        if i !in chunks {
          complete := false;
          break;
        }
        i := i + 1;
      }
    }

    /**
     * Reassembly into a fresh zero-filled buffer of `totalSize` bytes; None
     * when a slice would not fit (the RangeError thrown by `Uint8Array.set`).
     */
    static method Reassemble(chunks: ChunkTable, total: nat, totalSize: nat) returns (result: Option<Bytes>)
      requires AllPresent(chunks, total)
      ensures result.Some? <==> |Joined(chunks, total)| <= totalSize
      ensures result.Some? ==> result.value == Joined(chunks, total) + Zeros(totalSize - |Joined(chunks, total)|)
    {
      var buf := new byte[totalSize](_ => 0);
      var offset := 0;
      var i := 0;
      while i < total
        invariant 0 <= i <= total
        invariant offset == |Joined(chunks, i)| <= totalSize
        invariant buf[..] == Joined(chunks, i) + Zeros(totalSize - offset)
      {
        var chunk := chunks[i];
        if offset + |chunk| > totalSize {
          JoinedLengthMonotone(chunks, i + 1, total);
          return None;
        }
        SetBytes(buf, offset, chunk);
        assert Zeros(totalSize - offset)[|chunk|..] == Zeros(totalSize - (offset + |chunk|));
        offset := offset + |chunk|;
        i := i + 1;
      }
      assert Joined(chunks, total) + Zeros(totalSize - offset) == buf[..];
      result := Some(buf[..]);
    }

    /** `handleReceivedChunk`: the buffer table and the deliveries follow `Receive`; other peers are untouched. */
    method HandleReceivedChunk(peer: PeerId, msg: Bytes)
      requires Valid()
      modifies this
      ensures Valid()
      ensures receiveBuffers == if peer in old(receiveBuffers)
        then old(receiveBuffers)[peer := Receive(old(receiveBuffers)[peer], msg).buffer]
        else old(receiveBuffers)
      ensures delivered == old(delivered) +
        (if peer in old(receiveBuffers) && Receive(old(receiveBuffers)[peer], msg).delivered.Some?
         then [Delivery(peer, Receive(old(receiveBuffers)[peer], msg).delivered.value)] else [])
      ensures peerConnections == old(peerConnections) && dataChannels == old(dataChannels)
      ensures messageSeq == old(messageSeq) && connectionState == old(connectionState) && error == old(error)
      ensures sent == old(sent)
    {
      if |msg| < ChunkHeaderSize {
        return;  // the DataView reads throw
      }
      var msgType := msg[0];
      var msgSeq := ReadU32LE(msg, 1);
      var chunkIndex := ReadU16LE(msg, 5);
      if peer !in receiveBuffers {
        return;
      }
      var peerBuffer := receiveBuffers[peer];
      if msgType == MsgTypeChunk {
        var chunks: ChunkTable := if msgSeq in peerBuffer then peerBuffer[msgSeq] else map[];
        receiveBuffers := receiveBuffers[peer := peerBuffer[msgSeq := chunks[chunkIndex := msg[ChunkHeaderSize..]]]];
      } else if msgType == MsgTypeComplete {
        if |msg| < CompleteRecordSize {
          return;  // the DataView reads throw
        }
        var totalChunks := ReadU16LE(msg, 7);
        var totalSize := ReadU32LE(msg, 9);
        if msgSeq !in peerBuffer {
          return;
        }
        var chunks := peerBuffer[msgSeq];
        var complete := CheckComplete(chunks, totalChunks);
        if complete {
          var result := Reassemble(chunks, totalChunks, totalSize);
          if result.Some? {
            receiveBuffers := receiveBuffers[peer := peerBuffer - {msgSeq}];
            delivered := delivered + [Delivery(peer, result.value)];
          }
        }
      }
    }

    /** Builds one Chunk record in a fresh buffer, field by field. */
    static method BuildChunkRecord(seqNo: nat, index: nat, chunk: Bytes) returns (msg: Bytes)
      ensures msg == ChunkRecord(seqNo, index, chunk)
    {
      var buf := new byte[ChunkHeaderSize + |chunk|](_ => 0);
      SetBytes(buf, 0, [MsgTypeChunk]);
      SetUint32(buf, 1, seqNo);
      SetUint16(buf, 5, index);
      SetBytes(buf, ChunkHeaderSize, chunk);
      msg := buf[..];
      assert msg == ChunkRecord(seqNo, index, chunk);
    }

    /** Builds the 13-byte Complete record in a fresh buffer, field by field. */
    static method BuildCompleteRecord(seqNo: nat, totalChunks: nat, totalSize: nat) returns (msg: Bytes)
      ensures msg == CompleteRecord(seqNo, totalChunks, totalSize)
    {
      var buf := new byte[CompleteRecordSize](_ => 0);
      SetBytes(buf, 0, [MsgTypeComplete]);
      SetUint32(buf, 1, seqNo);
      SetUint16(buf, 5, totalChunks);
      SetUint16(buf, 7, totalChunks);
      SetUint32(buf, 9, totalSize);
      msg := buf[..];
      assert msg == CompleteRecord(seqNo, totalChunks, totalSize);
    }

    /**
     * `sendData`: refused (false, nothing sent, sequence kept) without an
     * open channel or above 5 MiB buffered; otherwise the message's records go
     * out in order under the current sequence number, which then advances.
     */
    method SendData(peer: PeerId, data: Bytes, channel: ChannelStatus) returns (ok: bool)
      requires Valid()
      modifies this
      ensures Valid()
      ensures ok <==> peer in old(dataChannels) && CanSend(channel)
      ensures ok ==> (sent == old(sent) + Addressed(peer, SendRecords(old(messageSeq), data))
                      && messageSeq == old(messageSeq) + 1)
      ensures !ok ==> sent == old(sent) && messageSeq == old(messageSeq)
      ensures peerConnections == old(peerConnections) && dataChannels == old(dataChannels)
      ensures receiveBuffers == old(receiveBuffers) && delivered == old(delivered)
      ensures connectionState == old(connectionState) && error == old(error)
    {
      if peer !in dataChannels || channel.readyState != Open {
        return false;
      }
      if channel.bufferedAmount > MaxBufferedAmount {
        return false;
      }
      var seqNo := messageSeq;
      messageSeq := messageSeq + 1;
      var totalChunks := TotalChunks(|data|);
      ghost var records := ChunkRecords(seqNo, data);
      var i := 0;
      while i < totalChunks
        invariant 0 <= i <= totalChunks
        invariant sent == old(sent) + Addressed(peer, records[..i])
        invariant messageSeq == seqNo + 1
        invariant peerConnections == old(peerConnections) && dataChannels == old(dataChannels)
        invariant receiveBuffers == old(receiveBuffers) && delivered == old(delivered)
        invariant connectionState == old(connectionState) && error == old(error)
      {
        var start := i * ChunkSize;
        var end := Min(start + ChunkSize, |data|);
        TotalChunksIsCeiling(|data|);
        var chunkMsg := BuildChunkRecord(seqNo, i, data[start..end]);
        sent := sent + [Outbound(peer, chunkMsg)];
        assert records[..i + 1] == records[..i] + [records[i]];
        assert Addressed(peer, records[..i + 1]) == Addressed(peer, records[..i]) + [Outbound(peer, records[i])];
        i := i + 1;
      }
      var completeMsg := BuildCompleteRecord(seqNo, totalChunks, |data|);
      sent := sent + [Outbound(peer, completeMsg)];
      assert records[..totalChunks] == records;
      assert Addressed(peer, SendRecords(seqNo, data)) == Addressed(peer, records) + [Outbound(peer, completeMsg)];
      ok := true;
    }

    /** `broadcastData`: `sendData` on every channel, in the channel map's order. */
    method BroadcastData(data: Bytes, status: PeerId -> ChannelStatus)
      requires Valid()
      modifies this
      ensures Valid()
      ensures sent == old(sent) + BroadcastOutput(old(dataChannels), status, old(messageSeq), RecordsOf(data)).out
      ensures messageSeq == BroadcastOutput(old(dataChannels), status, old(messageSeq), RecordsOf(data)).nextSeq
      ensures peerConnections == old(peerConnections) && dataChannels == old(dataChannels)
      ensures receiveBuffers == old(receiveBuffers) && delivered == old(delivered)
      ensures connectionState == old(connectionState) && error == old(error)
    {
      var i := 0;
      while i < |dataChannels|
        invariant Valid()
        invariant 0 <= i <= |dataChannels|
        invariant sent == old(sent) + BroadcastOutput(dataChannels[..i], status, old(messageSeq), RecordsOf(data)).out
        invariant messageSeq == BroadcastOutput(dataChannels[..i], status, old(messageSeq), RecordsOf(data)).nextSeq
        invariant peerConnections == old(peerConnections) && dataChannels == old(dataChannels)
        invariant receiveBuffers == old(receiveBuffers) && delivered == old(delivered)
        invariant connectionState == old(connectionState) && error == old(error)
      {
        var peer := dataChannels[i];
        assert dataChannels[..i + 1][..i] == dataChannels[..i];
        var _ := SendData(peer, data, status(peer));
        i := i + 1;
      }
      assert dataChannels[..|dataChannels|] == dataChannels;
    }
  }

  /** Joining more slices never gives fewer bytes. */
  lemma {:induction false} JoinedLengthMonotone(chunks: ChunkTable, i: nat, total: nat)
    requires i <= total && AllPresent(chunks, total)
    ensures |Joined(chunks, i)| <= |Joined(chunks, total)|
    decreases total - i
  {
    if i < total {
      JoinedLengthMonotone(chunks, i + 1, total);
    }
  }
}
