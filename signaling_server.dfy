/**
 * The signalling server's room table (server/src/index.ts): classic rooms
 * with one host and a set of viewers, conference rooms with a participant
 * map carrying `isSharing`, and the per-socket `currentRoom`. socket.io
 * emits are recorded as an output list of (target, message) pairs.
 */
module SignalingServer {
  import opened Types

  /** socket.io socket ids are never empty, so a set `host` is always truthy. */
  type SocketId = s: string | |s| > 0 witness "s"

  type RoomId = string

  datatype RoomMode = Classic | Conference

  /** A Room: `participants` maps each participant id to its `isSharing` flag. */
  datatype Room = Room(host: Option<SocketId>, viewers: set<SocketId>, mode: RoomMode, participants: map<SocketId, bool>)

  /** The server's tables: the rooms and the `currentRoom` of every connected socket (absent means null). */
  datatype ServerState = ServerState(rooms: map<RoomId, Room>, currentRoom: map<SocketId, RoomId>)

  /** Where an emit goes: `socket.emit`, `io.to(name)` (a room or a socket id), or `socket.to(name)` (all but the sender). */
  datatype Target = Direct(socket: SocketId) | ToName(name: string) | ToNameExcept(name: string, except: SocketId)

  datatype SignalKind = OfferSignal | AnswerSignal | IceCandidateSignal

  /** An SDP description or ICE candidate, passed through untouched. */
  type Payload = string

  datatype Message =
    | JoinedParticipant(roomId: RoomId, participants: map<SocketId, bool>)
    | JoinedHost(roomId: RoomId)
    | JoinedViewer(roomId: RoomId, hasHost: bool)
    | HostTaken
    | HostJoined
    | HostLeft
    | ViewerJoined(viewerId: SocketId)
    | RoomState(hostId: Option<SocketId>, viewerCount: nat)
    | ConferenceState(participants: map<SocketId, bool>)
    | ParticipantLeft(participantId: SocketId)
    | SharerStarted(sharerId: SocketId)
    | SharerStopped(sharerId: SocketId)
    | StreamRequested(viewerId: SocketId)
    | PeerStreamRequested(viewerId: SocketId)
    | Signal(kind: SignalKind, senderId: SocketId, payload: Payload)

  datatype Emit = Emit(to: Target, msg: Message)

  datatype JoinRequest = JoinRequest(roomId: RoomId, isHost: bool, mode: Option<RoomMode>)

  /** The new rooms table and what was emitted. */
  datatype Update = Update(rooms: map<RoomId, Room>, out: seq<Emit>)

  /** The result of one handler on the whole state. */
  datatype Step = Step(state: ServerState, out: seq<Emit>)

  // ---------------------------------------------------------------------
  // The handlers as functions of the state
  // ---------------------------------------------------------------------

  function NewRoom(): Room
  {
    Room(None, {}, Classic, map[])
  }

  /** `getOrCreateRoom`: an unknown id gets a new empty classic room; every other entry stays. */
  function GetOrCreateRoom(rooms: map<RoomId, Room>, roomId: RoomId): (r: map<RoomId, Room>)
    ensures roomId in r
    ensures roomId !in rooms ==> r[roomId] == Room(None, {}, Classic, map[])
    ensures roomId in rooms ==> r == rooms
    ensures r.Keys == rooms.Keys + {roomId}
    ensures forall x :: x in rooms ==> r[x] == rooms[x]
  {
    if roomId in rooms then rooms else rooms[roomId := NewRoom()]
  }

  /** Whether the socket's `currentRoom` is set and truthy. */
  predicate InSomeRoom(st: ServerState, s: SocketId)
  {
    s in st.currentRoom && st.currentRoom[s] != ""
  }

  /**
   * The room once socket `s` has left it, the same on leave and on
   * disconnect: a conference room loses the participant; a classic room
   * loses its host if `s` is the host, and the viewer `s` otherwise.
   */
  function Departed(room: Room, s: SocketId): (r: Room)
    ensures r.mode == room.mode
  {
    if room.mode == Conference then room.(participants := room.participants - {s})
    else if room.host == Some(s) then room.(host := None)
    else room.(viewers := room.viewers - {s})
  }

  /** A participant leaving conference room `name`: `sharer-stopped` if it was sharing, then `participant-left` and the new list. */
  function ConferenceLeaveEmits(room: Room, name: RoomId, s: SocketId): seq<Emit>
  {
    var wasSharing := s in room.participants && room.participants[s];
    (if wasSharing then [Emit(ToName(name), SharerStopped(s))] else [])
    + [Emit(ToName(name), ParticipantLeft(s)), Emit(ToName(name), ConferenceState(room.participants - {s}))]
  }

  /**
   * The "leave the previous room" block of `join-room`: a conference room
   * goes when its last participant leaves; a classic room announces
   * `host-left` when the host leaves, and stays even when empty.
   */
  function LeaveRoom(rooms: map<RoomId, Room>, name: RoomId, s: SocketId): (u: Update)
    ensures u.rooms.Keys <= rooms.Keys
    ensures forall x :: x in rooms && x != name ==> x in u.rooms && u.rooms[x] == rooms[x]
  {
    if name !in rooms then Update(rooms, [])
    else
      var room := rooms[name];
      var r := Departed(room, s);
      if room.mode == Conference then
        Update(if |r.participants| == 0 then rooms - {name} else rooms[name := r], ConferenceLeaveEmits(room, name, s))
      else
        Update(rooms[name := r], if room.host == Some(s) then [Emit(ToName(name), HostLeft)] else [])
  }

  /** The socket leaves its current room, if it has a truthy one. */
  function LeavePrevious(st: ServerState, s: SocketId): Update
  {
    if InSomeRoom(st, s) then LeaveRoom(st.rooms, st.currentRoom[s], s) else Update(st.rooms, [])
  }

  predicate IsEmpty(room: Room)
  {
    room.host.None? && room.viewers == {} && |room.participants| == 0
  }

  /** An empty room takes the requested mode (classic when none is given); any other room keeps its mode. */
  function WithMode(room: Room, mode: Option<RoomMode>): (r: Room)
    ensures IsEmpty(room) ==> r == room.(mode := if mode.Some? then mode.value else Classic)
    ensures !IsEmpty(room) ==> r == room
  {
    if IsEmpty(room) then room.(mode := if mode.Some? then mode.value else Classic) else room
  }

  /** Whether a classic host join is refused because another socket holds the host seat. */
  predicate HostSeatTaken(room: Room, s: SocketId)
  {
    room.host.Some? && room.host.value != s
  }

  /**
   * The room once socket `s` has joined it: a conference room gains a
   * participant that is not sharing; a classic room gains the host unless
   * another socket holds the seat, or gains the viewer.
   */
  function Entered(room0: Room, s: SocketId, isHost: bool, mode: Option<RoomMode>): Room
  {
    var room := WithMode(room0, mode);
    if room.mode == Conference then room.(participants := room.participants[s := false])
    else if isHost then (if HostSeatTaken(room, s) then room else room.(host := Some(s)))
    else room.(viewers := room.viewers + {s})
  }

  /** The emits of the join: `joined` to the socket, then the room's new state, or only an error for a refused host. */
  function JoinEmits(room0: Room, roomId: RoomId, s: SocketId, isHost: bool, mode: Option<RoomMode>): (out: seq<Emit>)
    ensures |out| > 0 && out[0].to == Direct(s)
  {
    var room := WithMode(room0, mode);
    var r := Entered(room0, s, isHost, mode);
    if room.mode == Conference then
      [Emit(Direct(s), JoinedParticipant(roomId, r.participants)), Emit(ToName(roomId), ConferenceState(r.participants))]
    else if isHost then
      if HostSeatTaken(room, s) then [Emit(Direct(s), HostTaken)]
      else [Emit(Direct(s), JoinedHost(roomId)), Emit(ToNameExcept(roomId, s), HostJoined),
            Emit(ToName(roomId), RoomState(r.host, |r.viewers|))]
    else
      [Emit(Direct(s), JoinedViewer(roomId, r.host.Some?))]
      + (if r.host.Some? then [Emit(ToName(r.host.value), ViewerJoined(s))] else [])
      + [Emit(ToName(roomId), RoomState(r.host, |r.viewers|))]
  }

  /** The rest of `join-room`, on the room now in the table. */
  function EnterRoom(rooms: map<RoomId, Room>, roomId: RoomId, s: SocketId, isHost: bool, mode: Option<RoomMode>): Update
    requires roomId in rooms
  {
    Update(rooms[roomId := Entered(rooms[roomId], s, isHost, mode)], JoinEmits(rooms[roomId], roomId, s, isHost, mode))
  }

  /** `join-room` with the previous room left before the target room is looked up. */
  function JoinRoom(st: ServerState, s: SocketId, req: JoinRequest): (r: Step)
    ensures req.roomId in r.state.rooms
    ensures r.state.currentRoom == st.currentRoom[s := req.roomId]
  {
    var left := LeavePrevious(st, s);
    var rooms := GetOrCreateRoom(left.rooms, req.roomId);
    var entered := EnterRoom(rooms, req.roomId, s, req.isHost, req.mode);
    Step(ServerState(entered.rooms, st.currentRoom[s := req.roomId]), left.out + entered.out)
  }

  /**
   * `join-room` as written: the room object is fetched (or created) first and
   * the previous room left afterwards. When both are the same conference
   * room and the socket was its only participant, leaving deletes the room
   * from the table and the rest of the handler updates a detached object.
   */
  function JoinRoomAsWritten(st: ServerState, s: SocketId, req: JoinRequest): Step
  {
    var rooms0 := GetOrCreateRoom(st.rooms, req.roomId);
    var left := if InSomeRoom(st, s) then LeaveRoom(rooms0, st.currentRoom[s], s) else Update(rooms0, []);
    var current := st.currentRoom[s := req.roomId];
    if req.roomId in left.rooms then
      var entered := EnterRoom(left.rooms, req.roomId, s, req.isHost, req.mode);
      Step(ServerState(entered.rooms, current), left.out + entered.out)
    else
      var detached := Departed(rooms0[req.roomId], s);
      Step(ServerState(left.rooms, current), left.out + JoinEmits(detached, req.roomId, s, req.isHost, req.mode))
  }

  /**
   * `disconnect`: the socket leaves its room. A conference room behaves as
   * on leave; a classic room announces its new state and goes when it has
   * neither host nor viewers. The socket's `currentRoom` goes with it.
   */
  function Disconnect(st: ServerState, s: SocketId): (r: Step)
    ensures r.state.currentRoom == st.currentRoom - {s}
    ensures r.state.rooms.Keys <= st.rooms.Keys
  {
    var current := st.currentRoom - {s};
    if !InSomeRoom(st, s) || st.currentRoom[s] !in st.rooms then Step(ServerState(st.rooms, current), [])
    else
      var name := st.currentRoom[s];
      var room := st.rooms[name];
      var r := Departed(room, s);
      if room.mode == Conference then
        Step(ServerState(if |r.participants| == 0 then st.rooms - {name} else st.rooms[name := r], current),
             ConferenceLeaveEmits(room, name, s))
      else
        Step(ServerState(if r.host.None? && r.viewers == {} then st.rooms - {name} else st.rooms[name := r], current),
             (if room.host == Some(s) then [Emit(ToName(name), HostLeft)] else [])
             + [Emit(ToName(name), RoomState(r.host, |r.viewers|))])
  }

  /** Whether the socket is a participant of the conference room it is in. */
  predicate IsConferenceParticipant(st: ServerState, s: SocketId)
  {
    InSomeRoom(st, s) && st.currentRoom[s] in st.rooms
    && st.rooms[st.currentRoom[s]].mode == Conference
    && s in st.rooms[st.currentRoom[s]].participants
  }

  /** `start-sharing` / `stop-sharing`: set `isSharing` for a participant and announce it. */
  function SetSharing(st: ServerState, s: SocketId, sharing: bool): (r: Step)
    ensures r.state.currentRoom == st.currentRoom && r.state.rooms.Keys == st.rooms.Keys
    ensures !IsConferenceParticipant(st, s) ==> r == Step(st, [])
  {
    if !IsConferenceParticipant(st, s) then Step(st, [])
    else
      var name := st.currentRoom[s];
      var room := st.rooms[name];
      var ps := room.participants[s := sharing];
      Step(ServerState(st.rooms[name := room.(participants := ps)], st.currentRoom),
           [Emit(ToNameExcept(name, s), if sharing then SharerStarted(s) else SharerStopped(s)),
            Emit(ToName(name), ConferenceState(ps))])
  }

  /** `request-stream`: a viewer asks its classic room's host for the stream. */
  function RequestStream(st: ServerState, s: SocketId): (out: seq<Emit>)
    ensures |out| <= 1
    ensures |out| == 1 <==> InSomeRoom(st, s) && st.currentRoom[s] in st.rooms && st.rooms[st.currentRoom[s]].host.Some?
    ensures |out| == 1 ==> out[0] == Emit(ToName(st.rooms[st.currentRoom[s]].host.value), StreamRequested(s))
  {
    if InSomeRoom(st, s) && st.currentRoom[s] in st.rooms && st.rooms[st.currentRoom[s]].host.Some? then
      [Emit(ToName(st.rooms[st.currentRoom[s]].host.value), StreamRequested(s))]
    else []
  }

  /** `offer` / `answer` / `ice-candidate`: forwarded to the target, payload untouched, sender stamped. */
  function Relay(kind: SignalKind, s: SocketId, targetId: string, payload: Payload): (e: Emit)
    ensures e.to == ToName(targetId)
    ensures e.msg.Signal? && e.msg.kind == kind && e.msg.senderId == s && e.msg.payload == payload
  {
    Emit(ToName(targetId), Signal(kind, s, payload))
  }

  /** `request-peer-stream`: forwarded to the target with the requester's id. */
  function RequestPeerStream(s: SocketId, targetId: string): (e: Emit)
    ensures e.to == ToName(targetId) && e.msg == PeerStreamRequested(s)
  {
    Emit(ToName(targetId), PeerStreamRequested(s))
  }


  // ---------------------------------------------------------------------
  // The table invariant
  // ---------------------------------------------------------------------

  /** Whether `m` is in the room: its host, one of its viewers or one of its participants. */
  predicate IsMember(room: Room, m: SocketId)
  {
    room.host == Some(m) || m in room.viewers || m in room.participants
  }

  /**
   * A conference room has no host or viewers and at least one participant; a
   * classic room has no participants; a host is not also a viewer.
   */
  predicate Shape(room: Room)
  {
    && (room.mode == Conference ==> room.host.None? && room.viewers == {} && |room.participants| > 0)
    && (room.mode == Classic ==> |room.participants| == 0)
    && (room.host.Some? ==> room.host.value !in room.viewers)
  }

  /** Every member's current room is `name`. */
  ghost predicate MembersIn(room: Room, cur: map<SocketId, RoomId>, name: RoomId)
  {
    forall m :: IsMember(room, m) ==> m in cur && cur[m] == name
  }

  ghost predicate RoomOk(room: Room, cur: map<SocketId, RoomId>, name: RoomId)
  {
    Shape(room) && MembersIn(room, cur, name)
  }

  /** The room id "" is falsy for `if (currentRoom)`, so the invariant speaks of every other room. */
  ghost predicate Inv(st: ServerState)
  {
    forall name :: name in st.rooms && name != "" ==> RoomOk(st.rooms[name], st.currentRoom, name)
  }

  /** The socket is a member of no room (other than ""). */
  ghost predicate NotMember(rooms: map<RoomId, Room>, s: SocketId)
  {
    forall name :: name in rooms && name != "" ==> !IsMember(rooms[name], s)
  }

  /** Leaving takes exactly the leaving socket out of a room of sound shape. */
  lemma DepartedMembers(room: Room, s: SocketId)
    requires Shape(room)
    ensures forall m :: IsMember(Departed(room, s), m) <==> IsMember(room, m) && m != s
  {
  }

  /** Leaving keeps a sound shape, except for a conference room left without participants. */
  lemma DepartedShape(room: Room, s: SocketId)
    requires Shape(room)
    ensures room.mode == Classic || |Departed(room, s).participants| > 0 ==> Shape(Departed(room, s))
  {
  }

  /** A conference room is left without participants exactly when the leaving socket was its only member. */
  lemma DepartedEmpty(room: Room, s: SocketId)
    requires Shape(room) && room.mode == Conference
    ensures |Departed(room, s).participants| == 0 <==> forall m :: IsMember(room, m) ==> m == s
  {
    var ps := Departed(room, s).participants;
    if |ps| == 0 {
      assert forall m :: IsMember(room, m) ==> m == s;
    } else {
      assert |ps.Keys| == |ps|;
      var m :| m in ps.Keys;
      assert IsMember(room, m) && m != s;
    }
  }

  /** A sound room stays sound when one of its members leaves, unless it is a conference room left empty. */
  lemma DepartedOk(room: Room, cur: map<SocketId, RoomId>, name: RoomId, s: SocketId)
    requires RoomOk(room, cur, name)
    ensures !IsMember(Departed(room, s), s)
    ensures room.mode == Classic || |Departed(room, s).participants| > 0 ==> RoomOk(Departed(room, s), cur, name)
  {
    DepartedMembers(room, s);
    DepartedShape(room, s);
  }

  /** Joining adds at most the joining socket. */
  lemma EnteredMembers(room: Room, s: SocketId, isHost: bool, mode: Option<RoomMode>)
    ensures forall m :: IsMember(Entered(room, s, isHost, mode), m) ==> IsMember(room, m) || m == s
  {
  }

  /** Joining a room of sound shape, by a socket not already in it, keeps the shape sound. */
  lemma EnteredShape(room: Room, s: SocketId, isHost: bool, mode: Option<RoomMode>)
    requires Shape(room) && !IsMember(room, s)
    ensures Shape(Entered(room, s, isHost, mode))
  {
    var w := WithMode(room, mode);
    if w.mode == Conference {
      var ps := w.participants[s := false];
      assert s in ps.Keys;
      assert |ps.Keys| == |ps|;
    }
  }

  /** A sound room stays sound when a socket whose current room it now is joins it. */
  lemma EnteredOk(room: Room, cur: map<SocketId, RoomId>, name: RoomId, s: SocketId, isHost: bool, mode: Option<RoomMode>)
    requires RoomOk(room, cur, name) && !IsMember(room, s)
    requires s in cur && cur[s] == name
    ensures RoomOk(Entered(room, s, isHost, mode), cur, name)
  {
    EnteredMembers(room, s, isHost, mode);
    EnteredShape(room, s, isHost, mode);
  }

  /** Changing the entry `name` only, to a sound room or to nothing, keeps the invariant. */
  lemma InvAfterUpdate(rooms: map<RoomId, Room>, rooms': map<RoomId, Room>, cur: map<SocketId, RoomId>, name: RoomId)
    requires Inv(ServerState(rooms, cur))
    requires forall x :: x in rooms' && x != name ==> x in rooms && rooms'[x] == rooms[x]
    requires name in rooms' && name != "" ==> RoomOk(rooms'[name], cur, name)
    ensures Inv(ServerState(rooms', cur))
  {
  }

  /** Re-pointing or dropping the current room of a socket that is in no room keeps the invariant. */
  lemma MoveNonMember(rooms: map<RoomId, Room>, cur: map<SocketId, RoomId>, s: SocketId, cur': map<SocketId, RoomId>)
    requires Inv(ServerState(rooms, cur)) && NotMember(rooms, s)
    requires forall m :: m != s ==> (m in cur' <==> m in cur) && (m in cur ==> cur'[m] == cur[m])
    ensures Inv(ServerState(rooms, cur'))
  {
    forall name | name in rooms && name != "" ensures RoomOk(rooms[name], cur', name)
    {
      assert RoomOk(rooms[name], cur, name);
      assert !IsMember(rooms[name], s);
    }
  }

  /** Leaving room `name` touches that entry only, and deletes it only when it is a conference room left empty. */
  lemma LeaveRoomFrame(rooms: map<RoomId, Room>, name: RoomId, s: SocketId)
    ensures var u := LeaveRoom(rooms, name, s).rooms;
      && u.Keys <= rooms.Keys
      && (forall x :: x in rooms && x != name ==> x in u && u[x] == rooms[x])
      && (name in u ==> u[name] == Departed(rooms[name], s))
      && (name in rooms && name !in u ==> rooms[name].mode == Conference && |Departed(rooms[name], s).participants| == 0)
      && (name in rooms && rooms[name].mode == Classic ==> name in u)
  {
  }

  /** Leaving keeps the invariant and leaves the socket a member of no room. */
  lemma LeavePreviousInv(st: ServerState, s: SocketId)
    requires Inv(st)
    ensures Inv(ServerState(LeavePrevious(st, s).rooms, st.currentRoom))
    ensures NotMember(LeavePrevious(st, s).rooms, s)
  {
    var u := LeavePrevious(st, s).rooms;
    if InSomeRoom(st, s) {
      var name := st.currentRoom[s];
      LeaveRoomFrame(st.rooms, name, s);
      if name in u && name != "" {
        DepartedOk(st.rooms[name], st.currentRoom, name, s);
      }
      InvAfterUpdate(st.rooms, u, st.currentRoom, name);
    }
    forall x | x in u && x != "" ensures !IsMember(u[x], s)
    {
      assert RoomOk(st.rooms[x], st.currentRoom, x);
    }
  }

  /** Looking up or creating the room keeps the invariant, and a new room has no members. */
  lemma GetOrCreateRoomInv(rooms: map<RoomId, Room>, cur: map<SocketId, RoomId>, s: SocketId, roomId: RoomId)
    requires Inv(ServerState(rooms, cur)) && NotMember(rooms, s)
    ensures Inv(ServerState(GetOrCreateRoom(rooms, roomId), cur)) && NotMember(GetOrCreateRoom(rooms, roomId), s)
  {
    InvAfterUpdate(rooms, GetOrCreateRoom(rooms, roomId), cur, roomId);
  }

  /** Entering a room keeps the invariant, for a socket that is in no room. */
  lemma EnterRoomInv(rooms: map<RoomId, Room>, cur: map<SocketId, RoomId>, s: SocketId, req: JoinRequest)
    requires Inv(ServerState(rooms, cur)) && NotMember(rooms, s) && req.roomId in rooms
    ensures Inv(ServerState(EnterRoom(rooms, req.roomId, s, req.isHost, req.mode).rooms, cur[s := req.roomId]))
  {
    var cur' := cur[s := req.roomId];
    MoveNonMember(rooms, cur, s, cur');
    if req.roomId != "" {
      EnteredOk(rooms[req.roomId], cur', req.roomId, s, req.isHost, req.mode);
    }
    InvAfterUpdate(rooms, EnterRoom(rooms, req.roomId, s, req.isHost, req.mode).rooms, cur', req.roomId);
  }

  /** `join-room` keeps the invariant. */
  lemma JoinRoomInv(st: ServerState, s: SocketId, req: JoinRequest)
    requires Inv(st)
    ensures Inv(JoinRoom(st, s, req).state)
  {
    var left := LeavePrevious(st, s).rooms;
    LeavePreviousInv(st, s);
    GetOrCreateRoomInv(left, st.currentRoom, s, req.roomId);
    EnterRoomInv(GetOrCreateRoom(left, req.roomId), st.currentRoom, s, req);
  }

  /** The table after `disconnect`, before the socket itself is forgotten, keeps the invariant. */
  lemma DisconnectRoomsInv(st: ServerState, s: SocketId)
    requires Inv(st)
    ensures Inv(ServerState(Disconnect(st, s).state.rooms, st.currentRoom))
  {
    if InSomeRoom(st, s) && st.currentRoom[s] in st.rooms {
      var name := st.currentRoom[s];
      DepartedOk(st.rooms[name], st.currentRoom, name, s);
      InvAfterUpdate(st.rooms, Disconnect(st, s).state.rooms, st.currentRoom, name);
    }
  }

  /** After `disconnect` the socket is a member of no room. */
  lemma DisconnectNotMember(st: ServerState, s: SocketId)
    requires Inv(st)
    ensures NotMember(Disconnect(st, s).state.rooms, s)
  {
    if !InSomeRoom(st, s) || st.currentRoom[s] !in st.rooms {
      NotMemberOfAny(st, s);
    } else {
      var name := st.currentRoom[s];
      DepartedOk(st.rooms[name], st.currentRoom, name, s);
      NotMemberElsewhere(st, s);
    }
  }

  /** A socket with no room in the table is a member of none. */
  lemma NotMemberOfAny(st: ServerState, s: SocketId)
    requires Inv(st)
    requires !InSomeRoom(st, s) || st.currentRoom[s] !in st.rooms
    ensures NotMember(st.rooms, s)
  {
    forall x | x in st.rooms && x != "" ensures !IsMember(st.rooms[x], s)
    {
      assert RoomOk(st.rooms[x], st.currentRoom, x);
    }
  }

  /** A socket is a member of no room but its current one; so dropping or replacing that room leaves it in none. */
  lemma NotMemberElsewhere(st: ServerState, s: SocketId)
    requires Inv(st)
    requires InSomeRoom(st, s) && st.currentRoom[s] in st.rooms
    ensures NotMember(st.rooms - {st.currentRoom[s]}, s)
    ensures forall r :: !IsMember(r, s) ==> NotMember(st.rooms[st.currentRoom[s] := r], s)
  {
    forall x | x in st.rooms && x != "" && x != st.currentRoom[s] ensures !IsMember(st.rooms[x], s)
    {
      assert RoomOk(st.rooms[x], st.currentRoom, x);
    }
  }

  /** `disconnect` keeps the invariant and leaves the socket a member of no room. */
  lemma DisconnectInv(st: ServerState, s: SocketId)
    requires Inv(st)
    ensures Inv(Disconnect(st, s).state)
    ensures NotMember(Disconnect(st, s).state.rooms, s)
  {
    DisconnectRoomsInv(st, s);
    DisconnectNotMember(st, s);
    MoveNonMember(Disconnect(st, s).state.rooms, st.currentRoom, s, st.currentRoom - {s});
  }

  /** `start-sharing` and `stop-sharing` keep the invariant. */
  lemma SetSharingInv(st: ServerState, s: SocketId, sharing: bool)
    requires Inv(st)
    ensures Inv(SetSharing(st, s, sharing).state)
  {
    if IsConferenceParticipant(st, s) {
      var name := st.currentRoom[s];
      var room := st.rooms[name];
      var room' := room.(participants := room.participants[s := sharing]);
      assert room'.participants.Keys == room.participants.Keys;
      assert |room'.participants| == |room'.participants.Keys|;
      assert |room.participants| == |room.participants.Keys|;
      assert RoomOk(room, st.currentRoom, name);
      InvAfterUpdate(st.rooms, SetSharing(st, s, sharing).state.rooms, st.currentRoom, name);
    }
  }

  // ---------------------------------------------------------------------
  // Properties of the handlers
  // ---------------------------------------------------------------------

  /** Everything the previous room is told on leave goes to that room. */
  lemma LeaveEmitsToOldRoom(st: ServerState, s: SocketId)
    ensures forall e :: e in LeavePrevious(st, s).out ==> e.to == ToName(st.currentRoom[s])
  {
  }

  /**
   * The joined room: a conference joiner is a participant that is not
   * sharing, a viewer is a viewer, and a would-be host holds the seat
   * exactly when no error went back.
   */
  lemma EnteredJoins(room0: Room, roomId: RoomId, s: SocketId, isHost: bool, mode: Option<RoomMode>)
    ensures var r := Entered(room0, s, isHost, mode);
      && r.mode == WithMode(room0, mode).mode
      && (r.mode == Conference ==> s in r.participants && !r.participants[s])
      && (r.mode == Classic && !isHost ==> s in r.viewers)
      && (r.mode == Classic && isHost ==>
            (r.host == Some(s) <==> Emit(Direct(s), HostTaken) !in JoinEmits(room0, roomId, s, isHost, mode)))
  {
  }

  /**
   * After `join-room` the socket's current room is the one it asked for; a
   * conference joiner is a non-sharing participant, a viewer is a viewer, and
   * a would-be host is the host exactly when no error went back.
   */
  lemma JoinedIsMember(st: ServerState, s: SocketId, req: JoinRequest)
    ensures var after := JoinRoom(st, s, req);
      var room := after.state.rooms[req.roomId];
      && req.roomId in after.state.rooms
      && after.state.currentRoom[s] == req.roomId
      && (room.mode == Conference ==> s in room.participants && !room.participants[s])
      && (room.mode == Classic && !req.isHost ==> s in room.viewers)
      && (room.mode == Classic && req.isHost ==> (room.host == Some(s) <==> Emit(Direct(s), HostTaken) !in after.out))
  {
    var left := LeavePrevious(st, s);
    var room0 := GetOrCreateRoom(left.rooms, req.roomId)[req.roomId];
    LeaveEmitsToOldRoom(st, s);
    EnteredJoins(room0, req.roomId, s, req.isHost, req.mode);
    var out := JoinEmits(room0, req.roomId, s, req.isHost, req.mode);
    assert JoinRoom(st, s, req).out == left.out + out;
    assert Emit(Direct(s), HostTaken) in left.out + out <==> Emit(Direct(s), HostTaken) in out;
  }

  /** A room's mode follows the request only when the room is empty; otherwise it is kept. */
  lemma JoinModeRule(st: ServerState, s: SocketId, req: JoinRequest)
    ensures var room := GetOrCreateRoom(LeavePrevious(st, s).rooms, req.roomId)[req.roomId];
      JoinRoom(st, s, req).state.rooms[req.roomId].mode
        == if IsEmpty(room) then (if req.mode.Some? then req.mode.value else Classic) else room.mode
  {
  }

  /** A host join while another socket is host is refused: only an error goes back and the room is unchanged. */
  lemma HostTakenRefused(st: ServerState, s: SocketId, req: JoinRequest)
    requires req.isHost
    requires var room := GetOrCreateRoom(LeavePrevious(st, s).rooms, req.roomId)[req.roomId];
      room.mode == Classic && HostSeatTaken(room, s)
    ensures JoinRoom(st, s, req).state.rooms == GetOrCreateRoom(LeavePrevious(st, s).rooms, req.roomId)
    ensures JoinRoom(st, s, req).out == LeavePrevious(st, s).out + [Emit(Direct(s), HostTaken)]
  {
  }

  /** A classic room is left with neither host nor viewers exactly when the leaving socket was its only member. */
  lemma ClassicEmptied(room: Room, s: SocketId)
    requires Shape(room) && room.mode == Classic
    ensures Departed(room, s).host.None? && Departed(room, s).viewers == {} <==> forall m :: IsMember(room, m) ==> m == s
  {
    var r := Departed(room, s);
    DepartedMembers(room, s);
    assert room.participants == map[];
    if r.host.None? && r.viewers == {} {
      assert forall m :: IsMember(room, m) ==> m == s;
    } else if r.host.Some? {
      assert IsMember(r, r.host.value);
    } else {
      var v :| v in r.viewers;
      assert IsMember(r, v);
    }
  }

  /**
   * On disconnect the socket is forgotten and belongs to no room; its room
   * is deleted exactly when nobody else is in it; `sharer-stopped` goes out
   * only for a participant that was sharing.
   */
  lemma DisconnectRemoves(st: ServerState, s: SocketId)
    requires Inv(st) && InSomeRoom(st, s) && st.currentRoom[s] in st.rooms
    ensures var name := st.currentRoom[s];
      var after := Disconnect(st, s);
      && s !in after.state.currentRoom
      && NotMember(after.state.rooms, s)
      && (name !in after.state.rooms <==> forall m :: IsMember(st.rooms[name], m) ==> m == s)
      && (Emit(ToName(name), SharerStopped(s)) in after.out <==>
            st.rooms[name].mode == Conference && s in st.rooms[name].participants && st.rooms[name].participants[s])
  {
    DisconnectInv(st, s);
    var name := st.currentRoom[s];
    var room := st.rooms[name];
    assert RoomOk(room, st.currentRoom, name);
    if room.mode == Conference {
      DepartedEmpty(room, s);
    } else {
      ClassicEmptied(room, s);
    }
  }

  /** Sharing flags change only for a participant of a conference room; any other request changes nothing. */
  lemma SharingOnlyForParticipants(st: ServerState, s: SocketId, sharing: bool)
    ensures !IsConferenceParticipant(st, s) ==> SetSharing(st, s, sharing) == Step(st, [])
    ensures IsConferenceParticipant(st, s) ==>
      var name := st.currentRoom[s];
      && SetSharing(st, s, sharing).state.rooms == st.rooms[name := st.rooms[name].(participants := st.rooms[name].participants[s := sharing])]
      && SetSharing(st, s, sharing).state.currentRoom == st.currentRoom
  {
  }

  /**
   * As written, a socket that is the only participant of a conference room
   * and joins that same room again gets `joined` back, yet the room is gone
   * from the table; with the previous room left first, the room is there
   * with the socket as its participant.
   */
  lemma RejoinAsWrittenLosesRoom()
    ensures var st := ServerState(map["r" := Room(None, {}, Conference, map["a" := true])], map["a" := "r"]);
      var req := JoinRequest("r", false, Some(Conference));
      && Inv(st)
      && "r" !in JoinRoomAsWritten(st, "a", req).state.rooms
      && Emit(Direct("a"), JoinedParticipant("r", map["a" := false])) in JoinRoomAsWritten(st, "a", req).out
      && "r" in JoinRoom(st, "a", req).state.rooms
      && JoinRoom(st, "a", req).state.rooms["r"].participants == map["a" := false]
  {
    var st := ServerState(map["r" := Room(None, {}, Conference, map["a" := true])], map["a" := "r"]);
    var req := JoinRequest("r", false, Some(Conference));
    var room := st.rooms["r"];
    assert RoomOk(room, st.currentRoom, "r");
    var detached := Departed(room, "a");
    assert detached.participants == map[];
    assert LeaveRoom(st.rooms, "r", "a").rooms == map[];
    assert WithMode(detached, req.mode) == detached;
    assert JoinEmits(detached, "r", "a", false, req.mode)[0] == Emit(Direct("a"), JoinedParticipant("r", map["a" := false]));
  }

  /** Leaving one room and creating another commute. */
  lemma LeaveCommutesWithCreate(rooms: map<RoomId, Room>, name: RoomId, roomId: RoomId, s: SocketId)
    requires name != roomId
    ensures LeaveRoom(GetOrCreateRoom(rooms, roomId), name, s)
         == Update(GetOrCreateRoom(LeaveRoom(rooms, name, s).rooms, roomId), LeaveRoom(rooms, name, s).out)
  {
    if name in rooms && roomId !in rooms {
      var r := Departed(rooms[name], s);
      assert rooms[roomId := NewRoom()][name] == rooms[name];
      if rooms[name].mode == Conference && |r.participants| == 0 {
        assert rooms[roomId := NewRoom()] - {name} == (rooms - {name})[roomId := NewRoom()];
      } else {
        assert rooms[roomId := NewRoom()][name := r] == rooms[name := r][roomId := NewRoom()];
      }
    }
  }

  /** Rejoining the current room agrees with the corrected handler unless that empties the room. */
  lemma AsWrittenAgreesOnRejoin(st: ServerState, s: SocketId, req: JoinRequest)
    requires InSomeRoom(st, s) && st.currentRoom[s] == req.roomId
    requires req.roomId in st.rooms ==>
      !(st.rooms[req.roomId].mode == Conference && |Departed(st.rooms[req.roomId], s).participants| == 0)
    ensures JoinRoomAsWritten(st, s, req) == JoinRoom(st, s, req)
  {
    var rooms0 := GetOrCreateRoom(st.rooms, req.roomId);
    LeaveRoomFrame(rooms0, req.roomId, s);
    if req.roomId !in st.rooms {
      assert Departed(NewRoom(), s) == NewRoom();
      assert LeaveRoom(rooms0, req.roomId, s) == Update(rooms0, []);
    }
  }

  /** Outside that one case the as-written handler and the corrected one agree exactly. */
  lemma AsWrittenAgreesOtherwise(st: ServerState, s: SocketId, req: JoinRequest)
    requires !(InSomeRoom(st, s) && st.currentRoom[s] == req.roomId && req.roomId in st.rooms
               && st.rooms[req.roomId].mode == Conference && |Departed(st.rooms[req.roomId], s).participants| == 0)
    ensures JoinRoomAsWritten(st, s, req) == JoinRoom(st, s, req)
  {
    if InSomeRoom(st, s) {
      if st.currentRoom[s] != req.roomId {
        LeaveCommutesWithCreate(st.rooms, st.currentRoom[s], req.roomId, s);
        LeaveRoomFrame(GetOrCreateRoom(st.rooms, req.roomId), st.currentRoom[s], s);
      } else {
        AsWrittenAgreesOnRejoin(st, s, req);
      }
    }
  }

  /** `join-room` as its three steps: leave, look up or create, enter. */
  lemma JoinRoomSteps(st: ServerState, s: SocketId, req: JoinRequest)
    ensures var left := LeavePrevious(st, s);
      var entered := EnterRoom(GetOrCreateRoom(left.rooms, req.roomId), req.roomId, s, req.isHost, req.mode);
      && JoinRoom(st, s, req).state == ServerState(entered.rooms, st.currentRoom[s := req.roomId])
      && JoinRoom(st, s, req).out == left.out + entered.out
  {
  }

  /** Concatenating emit lists regroups freely. */
  lemma AppendAssoc(a: seq<Emit>, b: seq<Emit>, c: seq<Emit>)
    ensures a + b + c == a + (b + c)
  {
  }

  // ---------------------------------------------------------------------
  // The server object
  // ---------------------------------------------------------------------

  class SignalingServer {
    var rooms: map<RoomId, Room>
    var currentRoom: map<SocketId, RoomId>
    /** Every emit, oldest first. */
    var emitted: seq<Emit>

    function State(): ServerState
      reads this
    {
      ServerState(rooms, currentRoom)
    }

    constructor()
      ensures rooms == map[] && currentRoom == map[] && emitted == []
      ensures Inv(State())
    {
      rooms := map[];
      currentRoom := map[];
      emitted := [];
    }

    /** `getOrCreateRoom` on the table. */
    method GetOrCreateRoomIn(roomId: RoomId)
      modifies this
      ensures rooms == GetOrCreateRoom(old(rooms), roomId)
      ensures currentRoom == old(currentRoom) && emitted == old(emitted)
    {
      if roomId !in rooms {
        rooms := rooms[roomId := Room(None, {}, Classic, map[])];
      }
    }

    /** The socket leaves room `name` (the first block of `join-room`). */
    method LeaveRoomIn(name: RoomId, s: SocketId)
      modifies this
      ensures rooms == LeaveRoom(old(rooms), name, s).rooms
      ensures emitted == old(emitted) + LeaveRoom(old(rooms), name, s).out
      ensures currentRoom == old(currentRoom)
    {
      if name !in rooms {
        return;
      }
      var oldRoom := rooms[name];
      if oldRoom.mode == Conference {
        var wasSharing := s in oldRoom.participants && oldRoom.participants[s];
        var room := oldRoom.(participants := oldRoom.participants - {s});
        var out := [];
        if wasSharing {
          out := [Emit(ToName(name), SharerStopped(s))];
        }
        emitted := emitted + (out + [Emit(ToName(name), ParticipantLeft(s)), Emit(ToName(name), ConferenceState(room.participants))]);
        if |room.participants| == 0 {
          rooms := rooms - {name};
        } else {
          rooms := rooms[name := room];
        }
      } else if oldRoom.host == Some(s) {
        rooms := rooms[name := oldRoom.(host := None)];
        emitted := emitted + [Emit(ToName(name), HostLeft)];
      } else {
        rooms := rooms[name := oldRoom.(viewers := oldRoom.viewers - {s})];
      }
    }

    /** The socket leaves its current room, if it has a truthy one. */
    method LeavePreviousIn(s: SocketId)
      modifies this
      ensures rooms == LeavePrevious(old(State()), s).rooms
      ensures emitted == old(emitted) + LeavePrevious(old(State()), s).out
      ensures currentRoom == old(currentRoom)
    {
      if s in currentRoom && currentRoom[s] != "" {
        LeaveRoomIn(currentRoom[s], s);
      }
    }

    /** The socket enters room `roomId`, already in the table (the rest of `join-room`). */
    method EnterRoomIn(roomId: RoomId, s: SocketId, isHost: bool, mode: Option<RoomMode>)
      requires roomId in rooms
      modifies this
      ensures rooms == EnterRoom(old(rooms), roomId, s, isHost, mode).rooms
      ensures emitted == old(emitted) + EnterRoom(old(rooms), roomId, s, isHost, mode).out
      ensures currentRoom == old(currentRoom)
    {
      var room, out := EnterRoomObject(rooms[roomId], roomId, s, isHost, mode);
      rooms := rooms[roomId := room];
      emitted := emitted + out;
    }

    /** The room object's update and the emits of the rest of `join-room`. */
    static method EnterRoomObject(room0: Room, roomId: RoomId, s: SocketId, isHost: bool, mode: Option<RoomMode>)
      returns (room: Room, out: seq<Emit>)
      ensures room == Entered(room0, s, isHost, mode)
      ensures out == JoinEmits(room0, roomId, s, isHost, mode)
    {
      room := room0;
      if room.host.None? && room.viewers == {} && |room.participants| == 0 {
        room := room.(mode := if mode.Some? then mode.value else Classic);
      }
      assert room == WithMode(room0, mode);
      if room.mode == Conference {
        room := room.(participants := room.participants[s := false]);
        out := [Emit(Direct(s), JoinedParticipant(roomId, room.participants)),
                Emit(ToName(roomId), ConferenceState(room.participants))];
      } else if isHost {
        if room.host.Some? && room.host.value != s {
          out := [Emit(Direct(s), HostTaken)];
        } else {
          room := room.(host := Some(s));
          out := [Emit(Direct(s), JoinedHost(roomId)), Emit(ToNameExcept(roomId, s), HostJoined),
                  Emit(ToName(roomId), RoomState(room.host, |room.viewers|))];
        }
      } else {
        room := room.(viewers := room.viewers + {s});
        out := [Emit(Direct(s), JoinedViewer(roomId, room.host.Some?))];
        if room.host.Some? {
          out := out + [Emit(ToName(room.host.value), ViewerJoined(s))];
        }
        out := out + [Emit(ToName(roomId), RoomState(room.host, |room.viewers|))];
      }
    }

    /** The `join-room` handler, leaving the previous room before looking up the new one. */
    method OnJoinRoom(s: SocketId, req: JoinRequest)
      modifies this
      ensures State() == JoinRoom(old(State()), s, req).state
      ensures emitted == old(emitted) + JoinRoom(old(State()), s, req).out
    {
      ghost var st := State();
      JoinRoomSteps(st, s, req);
      LeavePreviousIn(s);
      ghost var leftOut := emitted[|old(emitted)|..];
      GetOrCreateRoomIn(req.roomId);
      currentRoom := currentRoom[s := req.roomId];
      ghost var e1 := emitted;
      EnterRoomIn(req.roomId, s, req.isHost, req.mode);
      AppendAssoc(old(emitted), leftOut, emitted[|e1|..]);
    }

    /** The `disconnect` handler. */
    method OnDisconnect(s: SocketId)
      modifies this
      ensures State() == Disconnect(old(State()), s).state
      ensures emitted == old(emitted) + Disconnect(old(State()), s).out
    {
      ghost var st := State();
      if s in currentRoom && currentRoom[s] != "" && currentRoom[s] in rooms {
        var name := currentRoom[s];
        var room := rooms[name];
        if room.mode == Conference {
          LeaveRoomIn(name, s);
        } else {
          var out := [];
          if room.host == Some(s) {
            room := room.(host := None);
            out := [Emit(ToName(name), HostLeft)];
          } else {
            room := room.(viewers := room.viewers - {s});
          }
          emitted := emitted + (out + [Emit(ToName(name), RoomState(room.host, |room.viewers|))]);
          if room.host.None? && room.viewers == {} {
            rooms := rooms - {name};
          } else {
            rooms := rooms[name := room];
          }
        }
      }
      currentRoom := currentRoom - {s};
    }

    /** The `start-sharing` (sharing = true) and `stop-sharing` (sharing = false) handlers. */
    method OnSetSharing(s: SocketId, sharing: bool)
      modifies this
      ensures State() == SetSharing(old(State()), s, sharing).state
      ensures emitted == old(emitted) + SetSharing(old(State()), s, sharing).out
    {
      ghost var st := State();
      if !(s in currentRoom && currentRoom[s] != "") {
        return;
      }
      var name := currentRoom[s];
      if name !in rooms || rooms[name].mode != Conference {
        return;
      }
      var room := rooms[name];
      if s in room.participants {
        room := room.(participants := room.participants[s := sharing]);
        rooms := rooms[name := room];
        emitted := emitted + [Emit(ToNameExcept(name, s), if sharing then SharerStarted(s) else SharerStopped(s)),
                              Emit(ToName(name), ConferenceState(room.participants))];
      }
    }

    /** The `request-stream` handler. */
    method OnRequestStream(s: SocketId)
      modifies this
      ensures State() == old(State())
      ensures emitted == old(emitted) + RequestStream(old(State()), s)
    {
      if !(s in currentRoom && currentRoom[s] != "") {
        return;
      }
      var name := currentRoom[s];
      if name in rooms && rooms[name].host.Some? {
        emitted := emitted + [Emit(ToName(rooms[name].host.value), StreamRequested(s))];
      }
    }

    /** The `offer`, `answer` and `ice-candidate` handlers. */
    method OnSignal(kind: SignalKind, s: SocketId, targetId: string, payload: Payload)
      modifies this
      ensures State() == old(State())
      ensures emitted == old(emitted) + [Relay(kind, s, targetId, payload)]
    {
      emitted := emitted + [Emit(ToName(targetId), Signal(kind, s, payload))];
    }

    /** The `request-peer-stream` handler. */
    method OnRequestPeerStream(s: SocketId, targetId: string)
      modifies this
      ensures State() == old(State())
      ensures emitted == old(emitted) + [RequestPeerStream(s, targetId)]
    {
      emitted := emitted + [Emit(ToName(targetId), PeerStreamRequested(s))];
    }
  }
}
