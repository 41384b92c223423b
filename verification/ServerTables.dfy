/** The server's shared tables and what each critical section does to them. */
module ServerTables {
  import opened Prelude

  type UserId = string
  type RoomId = string
  type ConnId = nat
  type Addr = nat

  datatype ScreenShareMode = TextMode | GameMode

  datatype ScreenShareResolution = P1080 | P720

  datatype ScreenShareInfo = ScreenShareInfo(
    sourceName: string,
    width: u32,
    height: u32,
    mode: ScreenShareMode,
    resolution: ScreenShareResolution,
    targetFps: u32,
    activeCodec: string,
    transport: string)

  /** `tx` names the queue that the connection's writer task reads. */
  datatype UserConnection = UserConnection(displayName: string, isAdmin: bool, tx: ConnId)

  datatype Tables = Tables(
    users: map<UserId, UserConnection>,
    voiceRooms: map<RoomId, set<UserId>>,
    voiceAddrs: map<UserId, Addr>,
    screenShares: map<UserId, ScreenShareInfo>)

  const EMPTY := Tables(map[], map[], map[], map[])

  function Without(rooms: map<RoomId, set<UserId>>, u: UserId): map<RoomId, set<UserId>> {
    map r | r in rooms :: rooms[r] - {u}
  }

  function RoomsOf(rooms: map<RoomId, set<UserId>>, u: UserId): set<RoomId> {
    set r | r in rooms && u in rooms[r]
  }

  function Register(t: Tables, u: UserId, connection: UserConnection): Tables {
    t.(users := t.users[u := connection])
  }

  function Disconnect(t: Tables, u: UserId): Tables {
    Tables(t.users - {u}, Without(t.voiceRooms, u), t.voiceAddrs - {u}, t.screenShares - {u})
  }

  function JoinVoice(t: Tables, u: UserId, room: RoomId): Tables {
    var left := Without(t.voiceRooms, u);
    var members := if room in left then left[room] else {};
    t.(voiceRooms := left[room := members + {u}])
  }

  function LeaveVoice(t: Tables, u: UserId): Tables {
    t.(voiceRooms := Without(t.voiceRooms, u))
  }

  function RememberVoiceAddr(t: Tables, u: UserId, a: Addr): Tables {
    t.(voiceAddrs := t.voiceAddrs[u := a])
  }

  function InsertShare(t: Tables, u: UserId, info: ScreenShareInfo): Tables {
    t.(screenShares := t.screenShares[u := info])
  }

  function RemoveShare(t: Tables, u: UserId): Tables {
    t.(screenShares := t.screenShares - {u})
  }

  // ----- Critical sections -----

  /** The critical sections that change the tables. */
  datatype TableOp =
    | RegisterOp(user: UserId, connection: UserConnection)
    | DisconnectOp(user: UserId)
    | JoinOp(user: UserId, room: RoomId)
    | LeaveOp(user: UserId)
    | RememberOp(user: UserId, addr: Addr)
    | InsertShareOp(user: UserId, info: ScreenShareInfo)
    | RemoveShareOp(user: UserId)

  function Do(t: Tables, op: TableOp): Tables {
    match op
    case RegisterOp(u, connection) => Register(t, u, connection)
    case DisconnectOp(u) => Disconnect(t, u)
    case JoinOp(u, room) => JoinVoice(t, u, room)
    case LeaveOp(u) => LeaveVoice(t, u)
    case RememberOp(u, a) => RememberVoiceAddr(t, u, a)
    case InsertShareOp(u, info) => InsertShare(t, u, info)
    case RemoveShareOp(u) => RemoveShare(t, u)
  }

  /** The tables after these critical sections, oldest first. */
  function DoAll(ops: seq<TableOp>): Tables {
    if ops == [] then EMPTY else Do(DoAll(ops[..|ops| - 1]), ops[|ops| - 1])
  }

  lemma DoAllAppend(ops: seq<TableOp>, op: TableOp)
    ensures DoAll(ops + [op]) == Do(DoAll(ops), op)
  {
    assert (ops + [op])[..|ops|] == ops;
  }

  // ----- Queries and what holds of the tables -----

  /** The members a packet for `room` is relayed to, with the address of each. */
  function VoiceTargets(t: Tables, room: RoomId, sender: UserId): map<UserId, Addr> {
    if room !in t.voiceRooms then map[]
    else map m | m in t.voiceRooms[room] && m != sender && m in t.voiceAddrs :: t.voiceAddrs[m]
  }

  /** Every user is in at most one voice room. */
  ghost predicate OneRoomEach(rooms: map<RoomId, set<UserId>>) {
    forall r, s, u :: r in rooms && s in rooms && u in rooms[r] && u in rooms[s] ==> r == s
  }

  /** Whatever the critical sections and their order, nobody is ever in two rooms. */
  lemma {:induction false} OneRoomAlways(ops: seq<TableOp>)
    ensures OneRoomEach(DoAll(ops).voiceRooms)
  {
    if ops == [] {
      assert DoAll(ops) == EMPTY;
    } else {
      OneRoomAlways(ops[..|ops| - 1]);
    }
  }

  /** Joining puts the user into exactly that room, whatever room it was in. */
  lemma JoinVoiceMoves(t: Tables, u: UserId, room: RoomId)
    requires OneRoomEach(t.voiceRooms)
    ensures var rooms := JoinVoice(t, u, room).voiceRooms;
            OneRoomEach(rooms) && RoomsOf(rooms, u) == {room} && Without(rooms, u).Keys == t.voiceRooms.Keys + {room}
    ensures forall r, v :: r in t.voiceRooms && v != u ==>
              (v in JoinVoice(t, u, room).voiceRooms[r] <==> v in t.voiceRooms[r])
  {
  }

  /** Leaving empties the user's rooms; disconnecting leaves no trace of it anywhere. Nobody else
      is affected by either. */
  lemma GoneAfter(t: Tables, u: UserId)
    ensures RoomsOf(LeaveVoice(t, u).voiceRooms, u) == {} == RoomsOf(Disconnect(t, u).voiceRooms, u)
    ensures var t' := Disconnect(t, u);
            && u !in t'.users && u !in t'.voiceAddrs && u !in t'.screenShares
            && (forall v :: v != u ==>
                  && (v in t'.users <==> v in t.users)
                  && (v in t'.voiceAddrs <==> v in t.voiceAddrs)
                  && (v in t'.screenShares <==> v in t.screenShares)
                  && RoomsOf(t'.voiceRooms, v) == RoomsOf(t.voiceRooms, v) == RoomsOf(LeaveVoice(t, u).voiceRooms, v))
  {
    forall v | v != u
      ensures RoomsOf(Without(t.voiceRooms, u), v) == RoomsOf(t.voiceRooms, v)
    {
      assert forall r :: r in RoomsOf(t.voiceRooms, v) ==> v in Without(t.voiceRooms, u)[r];
    }
  }

  /** A relayed datagram goes to every other member of its room whose address is known and to
      nobody else. A client is a target of the room it joined last, of no other room, and of none
      once it has left or disconnected. */
  lemma TargetsAreOtherMembers(t: Tables, room: RoomId, sender: UserId, m: UserId)
    ensures m in VoiceTargets(t, room, sender) <==>
              room in t.voiceRooms && m in t.voiceRooms[room] && m != sender && m in t.voiceAddrs
    ensures forall joined :: m in VoiceTargets(JoinVoice(t, m, joined), room, sender) <==>
              joined == room && m != sender && m in t.voiceAddrs
    ensures m !in VoiceTargets(LeaveVoice(t, m), room, sender)
    ensures m !in VoiceTargets(Disconnect(t, m), room, sender)
    ensures forall v, a :: v != m ==>
              (m in VoiceTargets(RememberVoiceAddr(t, v, a), room, sender) <==> m in VoiceTargets(t, room, sender))
  {
  }

  // ----- The tables in terms of the critical sections -----

  function LastConnection(ops: seq<TableOp>, u: UserId): Option<UserConnection> {
    if ops == [] then None
    else
      match ops[|ops| - 1]
      case RegisterOp(v, connection) => if v == u then Some(connection) else LastConnection(ops[..|ops| - 1], u)
      case DisconnectOp(v) => if v == u then None else LastConnection(ops[..|ops| - 1], u)
      case _ => LastConnection(ops[..|ops| - 1], u)
  }

  function LastRoom(ops: seq<TableOp>, u: UserId): Option<RoomId> {
    if ops == [] then None
    else
      match ops[|ops| - 1]
      case JoinOp(v, room) => if v == u then Some(room) else LastRoom(ops[..|ops| - 1], u)
      case LeaveOp(v) => if v == u then None else LastRoom(ops[..|ops| - 1], u)
      case DisconnectOp(v) => if v == u then None else LastRoom(ops[..|ops| - 1], u)
      case _ => LastRoom(ops[..|ops| - 1], u)
  }

  function LastAddr(ops: seq<TableOp>, u: UserId): Option<Addr> {
    if ops == [] then None
    else
      match ops[|ops| - 1]
      case RememberOp(v, a) => if v == u then Some(a) else LastAddr(ops[..|ops| - 1], u)
      case DisconnectOp(v) => if v == u then None else LastAddr(ops[..|ops| - 1], u)
      case _ => LastAddr(ops[..|ops| - 1], u)
  }

  function LastShare(ops: seq<TableOp>, u: UserId): Option<ScreenShareInfo> {
    if ops == [] then None
    else
      match ops[|ops| - 1]
      case InsertShareOp(v, info) => if v == u then Some(info) else LastShare(ops[..|ops| - 1], u)
      case RemoveShareOp(v) => if v == u then None else LastShare(ops[..|ops| - 1], u)
      case DisconnectOp(v) => if v == u then None else LastShare(ops[..|ops| - 1], u)
      case _ => LastShare(ops[..|ops| - 1], u)
  }

  function Lookup<V>(m: map<UserId, V>, u: UserId): Option<V> {
    if u in m then Some(m[u]) else None
  }

  /** After any critical sections a user is registered with its latest connection, is in the room it
      joined last and no other, is known at the address last heard from and has the share it
      started last, each unless it has disconnected, left or stopped since. */
  lemma {:induction false} TablesFollowHistory(ops: seq<TableOp>, u: UserId)
    ensures var t := DoAll(ops);
            && Lookup(t.users, u) == LastConnection(ops, u)
            && Lookup(t.voiceAddrs, u) == LastAddr(ops, u)
            && Lookup(t.screenShares, u) == LastShare(ops, u)
            && RoomsOf(t.voiceRooms, u) == match LastRoom(ops, u) case None => {} case Some(room) => {room}
  {
    if ops == [] {
      assert RoomsOf(DoAll(ops).voiceRooms, u) == {};
    } else {
      TablesFollowHistory(ops[..|ops| - 1], u);
      DoAffects(DoAll(ops[..|ops| - 1]), ops[|ops| - 1], u);
    }
  }

  lemma DoAffects(t: Tables, op: TableOp, u: UserId)
    ensures var t' := Do(t, op);
            var rooms := RoomsOf(t.voiceRooms, u);
            && Lookup(t'.users, u) == (if op.user != u then Lookup(t.users, u)
                                       else if op.RegisterOp? then Some(op.connection)
                                       else if op.DisconnectOp? then None else Lookup(t.users, u))
            && Lookup(t'.voiceAddrs, u) == (if op.user != u then Lookup(t.voiceAddrs, u)
                                            else if op.RememberOp? then Some(op.addr)
                                            else if op.DisconnectOp? then None else Lookup(t.voiceAddrs, u))
            && Lookup(t'.screenShares, u) == (if op.user != u then Lookup(t.screenShares, u)
                                              else if op.InsertShareOp? then Some(op.info)
                                              else if op.RemoveShareOp? || op.DisconnectOp? then None
                                              else Lookup(t.screenShares, u))
            && RoomsOf(t'.voiceRooms, u) == (if op.user != u then rooms else if op.JoinOp? then {op.room}
                                             else if op.LeaveOp? || op.DisconnectOp? then {} else rooms)
  {
    RoomsAfterOp(t, op, u);
  }

  lemma RoomsAfterOp(t: Tables, op: TableOp, u: UserId)
    ensures var rooms := RoomsOf(t.voiceRooms, u);
            RoomsOf(Do(t, op).voiceRooms, u) == if op.user != u then rooms else if op.JoinOp? then {op.room}
                                                else if op.LeaveOp? || op.DisconnectOp? then {} else rooms
  {
    var rooms, rooms' := t.voiceRooms, Do(t, op).voiceRooms;
    forall r ensures r in RoomsOf(rooms', u) <==>
                       if op.user != u then r in RoomsOf(rooms, u) else if op.JoinOp? then r == op.room
                       else !(op.LeaveOp? || op.DisconnectOp?) && r in RoomsOf(rooms, u)
    {
      assert r in Without(rooms, op.user) <==> r in rooms;
    }
  }
}
