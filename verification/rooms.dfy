/** Room assignment over a socket: `joinRoom` (rate limit, then the
    resolution chain sticky / existing / city / geo), `joinMyRooms` and
    `leaveRoom`. Each handler is a pure step from the store and the
    join-attempt windows to a new state plus the emitted events. */
module Rooms {
  import opened Common
  import opened Models
  import opened Store
  import opened RoomKeys
  import RateLimit

  /** What the room handlers read and write: the durable store and the
      in-memory join-attempt windows. */
  datatype RoomState = RoomState(store: Store, attempts: map<UserId, seq<int>>)

  datatype Outcome = Outcome(state: RoomState, out: seq<Emission>)

  /** The `joinRoom` payload. `coordinates` is whatever array was sent. */
  datatype JoinRequest = JoinRequest(isCity: bool, roomId: Option<string>, coordinates: Option<seq<int>>)

  const TooManyAttempts := "Too many join attempts, try again in 1 minute."
  const UserNotFound := "User not found"
  const YouAreBlocked := "You are blocked."
  const NoRoomOrCoordinates := "No room ID or coordinates provided"
  const NotAllowedToJoin := "You are not allowed to join this room"
  const NotInAnyRoom := "You are not in any room"
  const JoinedExistingAssigned := "You have joined your existing room successfully"
  const JoinedExisting := "You have joined the existing room successfully"
  const Joined := "You have joined the room successfully"
  const JoinedMine := "You have joined your room successfully"

  /** The requested id after `trim().toLowerCase()`; an absent id is the
      falsy empty key. */
  function FineRoomId(req: JoinRequest): string {
    if req.roomId.Some? then Normalize(req.roomId.value) else ""
  }

  /** `myRooms.push(k)` guarded by `includes`. */
  function AddRoom(rooms: seq<RoomKey>, k: RoomKey): (r: seq<RoomKey>)
    ensures k in r && IsPrefix(rooms, r) && |r| <= |rooms| + 1
    ensures forall x :: x in r <==> x in rooms || x == k
    ensures NoDup(rooms) ==> NoDup(r)
  {
    if k in rooms then rooms else rooms + [k]
  }

  // ---------------------------------------------------------------------
  // Resolution chain

  /** Which branch of `joinRoom` seats the user, and in which room. */
  datatype Resolution =
    | Sticky(room: RoomKey)
    | Existing(room: RoomKey)
    | City(room: RoomKey)
    | NearbyGeo(room: RoomKey)
    | NewGeo(room: RoomKey)
    | Unresolved

  /** The branch chosen for user `u`. `nearest` is the geo query's answer:
      the room of the nearest seated user within 5000 m, if any. */
  function Resolve(u: User, fine: string, req: JoinRequest, rooms: set<RoomKey>, nearest: Option<RoomKey>)
    : (r: Resolution)
    ensures u.assignedRoom.Some? <==> r.Sticky?
    ensures r.Sticky? ==> Some(r.room) == u.assignedRoom
    ensures r.Existing? <==> u.assignedRoom.None? && fine != "" && fine in rooms
    ensures (r.Existing? || r.City?) ==> r.room == fine
    ensures r.City? <==> u.assignedRoom.None? && fine != "" && fine !in rooms && req.isCity
    ensures (r.NearbyGeo? || r.NewGeo? || r.Unresolved?) <==>
      (u.assignedRoom.None? && (fine == "" || (fine !in rooms && !req.isCity)))
    ensures r.NearbyGeo? ==>
      Some(r.room) == nearest && req.coordinates.Some? && |req.coordinates.value| == 2
    ensures r.NewGeo? ==>
      && nearest.None? && req.coordinates.Some? && |req.coordinates.value| == 2
      && r.room == GeoRoomName(req.coordinates.value[0], req.coordinates.value[1])
    ensures r.Unresolved? ==> req.coordinates.None? || |req.coordinates.value| != 2
  {
    if u.assignedRoom.Some? then Sticky(u.assignedRoom.value)
    else if fine != "" && fine in rooms then Existing(fine)
    else if req.isCity && fine != "" then City(fine)
    else if req.coordinates.Some? && |req.coordinates.value| == 2 then
      if nearest.Some? then NearbyGeo(nearest.value)
      else NewGeo(GeoRoomName(req.coordinates.value[0], req.coordinates.value[1]))
    else Unresolved
  }

  /** The user record after a successful `joinRoom` along branch `res`. */
  function Seat(u: User, res: Resolution, conn: ConnId): User {
    var online := u.(isOnline := true, socketId := Some(conn));
    match res
    case Sticky(_) => online
    case Existing(k) => online.(assignedRoom := Some(k), myRooms := AddRoom(u.myRooms, k))
    case City(k) => online.(assignedRoom := Some(k), myRooms := AddRoom(u.myRooms, k))
    case NearbyGeo(k) => online.(assignedRoom := Some(k))
    case NewGeo(k) => online.(assignedRoom := Some(k), myRooms := AddRoom(u.myRooms, k))
    case Unresolved => online
  }

  /** Room keys the branch creates with the create-if-absent upsert. */
  function Touched(res: Resolution): set<RoomKey> {
    match res
    case City(k) => {k}
    case NewGeo(k) => {k}
    case _ => {}
  }

  /** The message collection after the branch's create-if-absent upsert:
      a marker document for the city or new geo room, unless a document of
      that room exists already. */
  function Upsert(msgs: seq<Message>, rooms: set<RoomKey>, res: Resolution, now: int): (r: seq<Message>)
    ensures (res.City? || res.NewGeo?) && res.room !in rooms ==> r == msgs + [Marker(res.room, now)]
    ensures !((res.City? || res.NewGeo?) && res.room !in rooms) ==> r == msgs
  {
    if (res.City? || res.NewGeo?) && res.room !in rooms then msgs + [Marker(res.room, now)] else msgs
  }

  /** The events a successful `joinRoom` emits, given the users after the
      save. */
  function Announce(res: Resolution, uid: UserId, conn: ConnId, users: seq<User>, seated: Option<RoomKey>)
    : seq<Emission>
  {
    match res
    case Sticky(k) =>
      [Emit(ToRoom(Some(k)), RoomInfo(Some(k), None)),
       Emit(ToConn(conn), RoomJoined(Some(k), JoinedExistingAssigned))]
    case Existing(k) =>
      [Emit(ToRoom(Some(k)), RoomInfo(Some(k), Some(AssignedCount(users, k)))),
       Emit(ToConn(conn), RoomJoined(Some(k), JoinedExisting))]
    case _ =>
      var members := if seated.Some? then Some(AssignedCount(users, seated.value)) else None;
      [Emit(ToRoom(seated), UserJoined(uid, conn)),
       Emit(ToRoom(seated), NewMember(uid, conn, seated)),
       Emit(ToRoom(seated), RoomInfo(seated, members)),
       Emit(ToConn(conn), RoomJoined(seated, Joined))]
  }

  // ---------------------------------------------------------------------
  // Frame predicates

  /** Only the documents of user `uid` may differ. */
  predicate OthersUnchanged(users: seq<User>, users': seq<User>, uid: UserId) {
    |users'| == |users| &&
    forall j :: 0 <= j < |users| && users[j].id != uid ==> users'[j] == users[j]
  }

  /** Every user's `myRooms` keeps its old entries, in order. */
  predicate MyRoomsGrow(users: seq<User>, users': seq<User>) {
    |users'| == |users| &&
    forall j :: 0 <= j < |users| ==> IsPrefix(users[j].myRooms, users'[j].myRooms)
  }

  predicate MyRoomsNoDup(users: seq<User>) {
    forall j :: 0 <= j < |users| ==> NoDup(users[j].myRooms)
  }

  // ---------------------------------------------------------------------
  // joinRoom

  /** `joinRoom` once the rate limiter has admitted the attempt: the user
      lookup, the guards and the resolution chain. */
  function Dispatch(st: Store, uid: UserId, conn: ConnId, req: JoinRequest, nearest: Option<RoomKey>, now: int)
    : (r: (Store, seq<Emission>))
    ensures r.0.reports == st.reports
    ensures |st.messages| <= |r.0.messages| <= |st.messages| + 1
    ensures r.0.messages[..|st.messages|] == st.messages
    ensures |r.0.messages| > |st.messages| ==>
      var m := r.0.messages[|st.messages|];
      m == Marker(m.room, now) && m.room !in st.rooms && m.room in r.0.rooms
    ensures st.rooms <= r.0.rooms
    ensures OthersUnchanged(st.users, r.0.users, uid)
    ensures |r.1| == 1 ==> r.0 == st && IsError(r.1[0]) && r.1[0].to == ToConn(conn)
    ensures |r.1| != 1 ==> (FindUser(st.users, uid).Some? &&
      var i := FindUser(st.users, uid).value;
      r.0.users[i].isOnline && r.0.users[i].socketId == Some(conn))
  {
    match FindUser(st.users, uid)
    case None => (st, Reply(conn, UserNotFound))
    case Some(i) =>
      var u := st.users[i];
      var fine := FineRoomId(req);
      if u.isBlocked then (st, Reply(conn, YouAreBlocked))
      else if fine == "" && req.coordinates.None? then (st, Reply(conn, NoRoomOrCoordinates))
      else
        var res := Resolve(u, fine, req, st.rooms, nearest);
        var users' := st.users[i := Seat(u, res, conn)];
        (st.(users := users', rooms := st.rooms + Touched(res), messages := Upsert(st.messages, st.rooms, res, now)),
         Announce(res, uid, conn, users', users'[i].assignedRoom))
  }

  /** The `joinRoom` handler of user `uid` on connection `conn` at `now`:
      the attempt is recorded first, whatever follows. */
  function JoinRoom(s: RoomState, uid: UserId, conn: ConnId, now: int, req: JoinRequest, nearest: Option<RoomKey>)
    : (r: Outcome)
    ensures r.state.attempts == RateLimit.CheckAndRecord(s.attempts, uid, now).0
    ensures !RateLimit.CheckAndRecord(s.attempts, uid, now).1 ==>
              r.state.store == s.store && r.out == Reply(conn, TooManyAttempts)
    ensures RateLimit.CheckAndRecord(s.attempts, uid, now).1 ==>
              (r.state.store, r.out) == Dispatch(s.store, uid, conn, req, nearest, now)
  {
    var (attempts, admitted) := RateLimit.CheckAndRecord(s.attempts, uid, now);
    if !admitted then Outcome(s.(attempts := attempts), Reply(conn, TooManyAttempts))
    else
      var (st', out) := Dispatch(s.store, uid, conn, req, nearest, now);
      Outcome(RoomState(st', attempts), out)
  }

  // ---------------------------------------------------------------------
  // joinMyRooms

  /** Whether `joinMyRooms` lets `uid` return to `roomId`: the raw id, not
      normalised, must already be in the user's `myRooms`. */
  predicate MayReturn(users: seq<User>, uid: UserId, roomId: Option<string>) {
    FindUser(users, uid).Some? && roomId.Some? && roomId.value in users[FindUser(users, uid).value].myRooms
  }

  /** The `joinMyRooms` handler: returning to a room already in `myRooms`.
      Neither the rate limit nor the blocked flag is consulted, and the
      socket id is not recorded. */
  function JoinMyRooms(st: Store, uid: UserId, conn: ConnId, roomId: Option<string>): (r: (Store, seq<Emission>))
    ensures r.0.rooms == st.rooms && r.0.messages == st.messages && r.0.reports == st.reports
    ensures OthersUnchanged(st.users, r.0.users, uid)
    ensures !MayReturn(st.users, uid, roomId) ==> r == (st, Reply(conn, NotAllowedToJoin))
    ensures MayReturn(st.users, uid, roomId) ==> (
      var i := FindUser(st.users, uid).value;
      && r.0.users[i] == st.users[i].(assignedRoom := Some(roomId.value), isOnline := true)
      && |r.1| == 2 && !IsError(r.1[0]) && !IsError(r.1[1])
      && r.1[1] == Emit(ToConn(conn), RoomJoined(Some(roomId.value), JoinedMine)))
  {
    match FindUser(st.users, uid)
    case None => (st, Reply(conn, NotAllowedToJoin))
    case Some(i) =>
      var u := st.users[i];
      if roomId.None? || roomId.value !in u.myRooms then (st, Reply(conn, NotAllowedToJoin))
      else
        var k: RoomKey := roomId.value;
        var users' := st.users[i := u.(assignedRoom := Some(k), isOnline := true)];
        (st.(users := users'),
         [Emit(ToRoom(Some(k)), RoomInfo(Some(k), Some(AssignedCount(users', k)))),
          Emit(ToConn(conn), RoomJoined(Some(k), JoinedMine))])
  }

  // ---------------------------------------------------------------------
  // leaveRoom

  /** The acknowledgement callback, when the client passed one. */
  function AckIf(hasCallback: bool, conn: ConnId, ok: bool, message: string): (r: seq<Emission>)
    ensures forall j :: 0 <= j < |r| ==> r[j].to == ToConn(conn)
    ensures !hasCallback ==> r == []
    ensures hasCallback ==> r == [Emit(ToConn(conn), Ack(ok, message))]
  {
    if hasCallback then [Emit(ToConn(conn), Ack(ok, message))] else []
  }

  /** The `leaveRoom` handler; `hasCallback` says whether the client passed
      an acknowledgement callback. */
  function LeaveRoom(st: Store, uid: UserId, conn: ConnId, hasCallback: bool): (r: (Store, seq<Emission>))
    ensures r.0.rooms == st.rooms && r.0.messages == st.messages && r.0.reports == st.reports
    ensures OthersUnchanged(st.users, r.0.users, uid)
    ensures forall j :: 0 <= j < |st.users| ==> r.0.users[j].myRooms == st.users[j].myRooms
    ensures r.0 == st <==> !Broadcasts(r.1, conn)
    ensures r.0 == st <==>
      FindUser(st.users, uid).None? || st.users[FindUser(st.users, uid).value].assignedRoom.None?
    ensures r.0 == st ==> r.1 == AckIf(hasCallback, conn, false, NotInAnyRoom)
    ensures r.0 != st ==> |r.1| >= 1 && r.1[1..] == AckIf(hasCallback, conn, true, "")
    ensures r.0 != st ==> (FindUser(st.users, uid).Some? &&
      var i := FindUser(st.users, uid).value;
      && st.users[i].assignedRoom.Some?
      && r.0.users[i] == st.users[i].(assignedRoom := None, isOnline := false, socketId := None)
      && r.1[0] == Emit(ToRoom(st.users[i].assignedRoom), UserLeft(uid, conn)))
  {
    match FindUser(st.users, uid)
    case None => (st, AckIf(hasCallback, conn, false, NotInAnyRoom))
    case Some(i) =>
      var u := st.users[i];
      if u.assignedRoom.None? then (st, AckIf(hasCallback, conn, false, NotInAnyRoom))
      else
        var left := u.assignedRoom.value;
        var u' := u.(assignedRoom := None, isOnline := false, socketId := None);
        var users' := st.users[i := u'];
        assert users'[i] != st.users[i];
        var out := [Emit(ToRoom(Some(left)), UserLeft(uid, conn))] + AckIf(hasCallback, conn, true, "");
        assert out[0].to != ToConn(conn);
        (st.(users := users'), out)
  }

  // ---------------------------------------------------------------------
  // Properties of joinRoom

  /** After the rate check, a missing user, a blocked user, or a request
      with neither a room id nor coordinates is an error and writes
      nothing. The parameter check comes before the sticky branch, so it
      refuses a user who already has a room as well. */
  lemma GuardsRefuse(st: Store, uid: UserId, conn: ConnId, req: JoinRequest, nearest: Option<RoomKey>, now: int)
    ensures FindUser(st.users, uid).None? ==>
      Dispatch(st, uid, conn, req, nearest, now) == (st, Reply(conn, UserNotFound))
    ensures FindUser(st.users, uid).Some? && st.users[FindUser(st.users, uid).value].isBlocked ==>
      Dispatch(st, uid, conn, req, nearest, now) == (st, Reply(conn, YouAreBlocked))
    ensures FindUser(st.users, uid).Some? && !st.users[FindUser(st.users, uid).value].isBlocked
            && FineRoomId(req) == "" && req.coordinates.None? ==>
      Dispatch(st, uid, conn, req, nearest, now) == (st, Reply(conn, NoRoomOrCoordinates))
    ensures var r := Dispatch(st, uid, conn, req, nearest, now);
      |r.1| == 1 <==> r.0 == st && (FindUser(st.users, uid).None? || st.users[FindUser(st.users, uid).value].isBlocked
                                    || (FineRoomId(req) == "" && req.coordinates.None?))
  {
    var r := Dispatch(st, uid, conn, req, nearest, now);
    if FindUser(st.users, uid).Some? {
      var i := FindUser(st.users, uid).value;
      if !st.users[i].isBlocked && (FineRoomId(req) != "" || req.coordinates.Some?) {
        AdmittedJoinSeats(st, uid, i, conn, req, nearest, now);
      }
    }
  }

  /** The user seated by a successful `joinRoom`. */
  predicate Admissible(st: Store, uid: UserId, i: nat, req: JoinRequest) {
    FindUser(st.users, uid) == Some(i) && !st.users[i].isBlocked &&
    (FineRoomId(req) != "" || req.coordinates.Some?)
  }

  /** An admitted request seats the user along the branch `Resolve`
      chooses, records the rooms that branch creates, writes their marker
      documents and announces it. */
  lemma DispatchAdmitted(st: Store, uid: UserId, i: nat, conn: ConnId, req: JoinRequest, nearest: Option<RoomKey>, now: int)
    requires Admissible(st, uid, i, req)
    ensures var res := Resolve(st.users[i], FineRoomId(req), req, st.rooms, nearest);
            var seated := Seat(st.users[i], res, conn);
            var users' := st.users[i := seated];
      Dispatch(st, uid, conn, req, nearest, now)
        == (st.(users := users', rooms := st.rooms + Touched(res), messages := Upsert(st.messages, st.rooms, res, now)),
            Announce(res, uid, conn, users', seated.assignedRoom))
  {
  }

  /** What a caller of an admitted `joinRoom` can rely on: the user is
      online on `conn` and seated in the resolved room (in no room when
      nothing resolved); a room the branch joins by name or creates is
      recorded and added to `myRooms`; every event but the last goes,
      error-free, to that room, and the last tells `conn` which room it
      joined. */
  lemma AdmittedJoinSeats(st: Store, uid: UserId, i: nat, conn: ConnId, req: JoinRequest, nearest: Option<RoomKey>, now: int)
    requires Admissible(st, uid, i, req)
    ensures var res := Resolve(st.users[i], FineRoomId(req), req, st.rooms, nearest);
            var r := Dispatch(st, uid, conn, req, nearest, now);
            var seat := if res.Unresolved? then None else Some(res.room);
      && r.0.users[i].isOnline && r.0.users[i].socketId == Some(conn)
      && r.0.users[i].assignedRoom == seat
      && ((res.Existing? || res.City? || res.NewGeo?) ==> res.room in r.0.rooms && res.room in r.0.users[i].myRooms)
      && |r.1| >= 2
      && (forall j :: 0 <= j < |r.1| - 1 ==> r.1[j].to == ToRoom(seat) && !IsError(r.1[j]))
      && r.1[|r.1| - 1].to == ToConn(conn)
      && r.1[|r.1| - 1].event.RoomJoined? && r.1[|r.1| - 1].event.room == seat
  {
    var u := st.users[i];
    var res := Resolve(u, FineRoomId(req), req, st.rooms, nearest);
    var seated := Seat(u, res, conn);
    var users' := st.users[i := seated];
    DispatchAdmitted(st, uid, i, conn, req, nearest, now);
    SeatMyRooms(u, res, conn);
    SeatPlaces(u, res, conn);
    AnnounceReaches(res, uid, conn, users', seated.assignedRoom);
  }

  /** The seat of a resolved branch is its room; an unresolved one seats
      the user nowhere. */
  lemma SeatPlaces(u: User, res: Resolution, conn: ConnId)
    requires res.Sticky? ==> u.assignedRoom == Some(res.room)
    requires res.Unresolved? ==> u.assignedRoom.None?
    ensures var v := Seat(u, res, conn);
      && v.isOnline && v.socketId == Some(conn)
      && v.assignedRoom == if res.Unresolved? then None else Some(res.room)
  {
  }

  /** The join events of the branch seated in `seated`: all but the last
      go to that room, the last to the caller. */
  lemma AnnounceReaches(res: Resolution, uid: UserId, conn: ConnId, users: seq<User>, seated: Option<RoomKey>)
    requires seated == if res.Unresolved? then None else Some(res.room)
    ensures var out := Announce(res, uid, conn, users, seated);
      && |out| >= 2
      && (forall j :: 0 <= j < |out| - 1 ==> out[j].to == ToRoom(seated) && !IsError(out[j]))
      && out[|out| - 1].to == ToConn(conn)
      && out[|out| - 1].event.RoomJoined? && out[|out| - 1].event.room == seated
  {
  }

  /** `joinRoom` keeps every document's room known: a marker is written
      only together with its room. */
  lemma DispatchKeepsRoomsRecorded(st: Store, uid: UserId, conn: ConnId, req: JoinRequest, nearest: Option<RoomKey>, now: int)
    requires RoomsRecorded(st)
    ensures RoomsRecorded(Dispatch(st, uid, conn, req, nearest, now).0)
  {
    var st' := Dispatch(st, uid, conn, req, nearest, now).0;
    forall j | 0 <= j < |st'.messages|
      ensures st'.messages[j].room in st'.rooms
    {
      if j < |st.messages| {
        assert st'.messages[j] == st'.messages[..|st.messages|][j];
      }
    }
  }

  /** A user who already has a room is put back into it whatever room id or
      coordinates were sent: only presence changes, `assignedRoom`,
      `myRooms` and the room set stay, and two such requests have the same
      effect. */
  lemma StickyWins(st: Store, uid: UserId, i: nat, conn: ConnId, req: JoinRequest, req': JoinRequest,
                   nearest: Option<RoomKey>, nearest': Option<RoomKey>, now: int)
    requires Admissible(st, uid, i, req) && Admissible(st, uid, i, req')
    requires st.users[i].assignedRoom.Some?
    ensures var r := Dispatch(st, uid, conn, req, nearest, now);
      && r.0 == st.(users := st.users[i := st.users[i].(isOnline := true, socketId := Some(conn))])
      && r.1[|r.1| - 1] == Emit(ToConn(conn), RoomJoined(st.users[i].assignedRoom, JoinedExistingAssigned))
    ensures Dispatch(st, uid, conn, req, nearest, now) == Dispatch(st, uid, conn, req', nearest', now)
  {
  }

  /** `joinRoom` looks at the requested id only through its normal form:
      ids differing in case or surrounding white space join the same room. */
  lemma OnlyNormalFormMatters(st: Store, uid: UserId, conn: ConnId, req: JoinRequest, nearest: Option<RoomKey>, now: int)
    requires req.roomId.Some?
    ensures Dispatch(st, uid, conn, req.(roomId := Some(Normalize(req.roomId.value))), nearest, now)
         == Dispatch(st, uid, conn, req, nearest, now)
  {
    var req' := req.(roomId := Some(Normalize(req.roomId.value)));
    NormalizeIdempotent(req.roomId.value);
    assert FineRoomId(req') == FineRoomId(req);
    DispatchReadsFineId(st, uid, conn, req', req, nearest, now);
  }

  /** `joinRoom` sees the requested id only through its normal form. */
  lemma DispatchReadsFineId(st: Store, uid: UserId, conn: ConnId, req: JoinRequest, req': JoinRequest,
                            nearest: Option<RoomKey>, now: int)
    requires FineRoomId(req) == FineRoomId(req')
    requires req.isCity == req'.isCity && req.coordinates == req'.coordinates
    ensures Dispatch(st, uid, conn, req, nearest, now) == Dispatch(st, uid, conn, req', nearest, now)
  {
    match FindUser(st.users, uid) {
      case None =>
      case Some(i) =>
        var u := st.users[i];
        var fine := FineRoomId(req);
        if !u.isBlocked && !(fine == "" && req.coordinates.None?) {
          ResolveReadsView(u, fine, req, req', st.rooms, nearest);
        }
    }
  }

  lemma ResolveReadsView(u: User, fine: string, req: JoinRequest, req': JoinRequest, rooms: set<RoomKey>,
                         nearest: Option<RoomKey>)
    requires req.isCity == req'.isCity && req.coordinates == req'.coordinates
    ensures Resolve(u, fine, req, rooms, nearest) == Resolve(u, fine, req', rooms, nearest)
  {
  }

  /** The `myRooms` entries a seat adds: at most the chosen room, never a
      duplicate, and nothing for the sticky and nearby-geo branches. */
  lemma SeatMyRooms(u: User, res: Resolution, conn: ConnId)
    ensures IsPrefix(u.myRooms, Seat(u, res, conn).myRooms)
    ensures NoDup(u.myRooms) ==> NoDup(Seat(u, res, conn).myRooms)
    ensures (res.Existing? || res.City? || res.NewGeo?) ==> res.room in Seat(u, res, conn).myRooms
    ensures (res.Sticky? || res.NearbyGeo? || res.Unresolved?) ==> Seat(u, res, conn).myRooms == u.myRooms
  {
  }

  /** Every user's `myRooms` only grows under `joinRoom`, and never gains a
      duplicate. */
  lemma DispatchGrowsMyRooms(st: Store, uid: UserId, conn: ConnId, req: JoinRequest, nearest: Option<RoomKey>, now: int)
    ensures MyRoomsGrow(st.users, Dispatch(st, uid, conn, req, nearest, now).0.users)
    ensures MyRoomsNoDup(st.users) ==> MyRoomsNoDup(Dispatch(st, uid, conn, req, nearest, now).0.users)
  {
    var r := Dispatch(st, uid, conn, req, nearest, now);
    if r.0 != st {
      var i := FindUser(st.users, uid).value;
      var u := st.users[i];
      var res := Resolve(u, FineRoomId(req), req, st.rooms, nearest);
      SeatMyRooms(u, res, conn);
      assert r.0.users == st.users[i := Seat(u, res, conn)];
    }
  }

  /** Which branches record the room in `myRooms`: the existing-room, city
      and new-geo branches add it when absent; the nearby-geo branch seats
      the user in a room it does not record. */
  lemma BranchRecordsRoom(st: Store, uid: UserId, i: nat, conn: ConnId, req: JoinRequest, nearest: Option<RoomKey>, now: int)
    requires Admissible(st, uid, i, req)
    ensures var res := Resolve(st.users[i], FineRoomId(req), req, st.rooms, nearest);
            var u' := Dispatch(st, uid, conn, req, nearest, now).0.users[i];
      && (res.Existing? || res.City? || res.NewGeo? ==> u'.assignedRoom == Some(res.room) && res.room in u'.myRooms)
      && (res.NearbyGeo? ==> u'.assignedRoom == nearest && u'.myRooms == st.users[i].myRooms)
  {
    SeatMyRooms(st.users[i], Resolve(st.users[i], FineRoomId(req), req, st.rooms, nearest), conn);
  }

  /** The nearby-geo branch can leave a user in a room that is not among
      their `myRooms`, so `joinMyRooms` will later refuse that very room. */
  lemma NearbyRoomNotReturnable(st: Store, uid: UserId, i: nat, conn: ConnId, coords: seq<int>, k: RoomKey, now: int)
    requires FindUser(st.users, uid) == Some(i) && !st.users[i].isBlocked
    requires st.users[i].assignedRoom.None? && k !in st.users[i].myRooms && |coords| == 2
    ensures var st' := Dispatch(st, uid, conn, JoinRequest(false, None, Some(coords)), Some(k), now).0;
      && st'.users[i].assignedRoom == Some(k)
      && !MayReturn(st'.users, uid, Some(k))
  {
    var req := JoinRequest(false, None, Some(coords));
    var st' := Dispatch(st, uid, conn, req, Some(k), now).0;
    BranchRecordsRoom(st, uid, i, conn, req, Some(k), now);
    FindUserAfterUpdate(st.users, uid, i, st'.users[i]);
  }

  /** Replacing the found document by one with the same id leaves the
      lookup where it was. */
  lemma FindUserAfterUpdate(users: seq<User>, uid: UserId, i: nat, u: User)
    requires FindUser(users, uid) == Some(i) && u.id == uid
    ensures FindUser(users[i := u], uid) == Some(i)
  {
    var users' := users[i := u];
    assert users'[i].id == uid;
    assert forall k :: 0 <= k < i ==> users'[k] == users[k];
  }

  /** An unknown id that is not a city, sent without a usable coordinate
      pair, is not an error: the user is marked online in no room and the
      events go to the undefined room. */
  lemma ResolvesNowhere(st: Store, uid: UserId, i: nat, conn: ConnId, req: JoinRequest, nearest: Option<RoomKey>)
    requires Admissible(st, uid, i, req) && st.users[i].assignedRoom.None?
    requires FineRoomId(req) !in st.rooms && !req.isCity
    requires req.coordinates.None? || |req.coordinates.value| != 2
    ensures Resolve(st.users[i], FineRoomId(req), req, st.rooms, nearest) == Unresolved
  {
  }

  /** In that case the only change is the user's presence, no room is
      created, and the four join events go out with no room. */
  lemma UnresolvedSeatsNowhere(st: Store, uid: UserId, i: nat, conn: ConnId, req: JoinRequest, nearest: Option<RoomKey>, now: int)
    requires Admissible(st, uid, i, req) && st.users[i].assignedRoom.None?
    requires FineRoomId(req) !in st.rooms && !req.isCity
    requires req.coordinates.None? || |req.coordinates.value| != 2
    ensures var users' := st.users[i := st.users[i].(isOnline := true, socketId := Some(conn))];
      Dispatch(st, uid, conn, req, nearest, now) == (st.(users := users'), Announce(Unresolved, uid, conn, users', None))
  {
    ResolvesNowhere(st, uid, i, conn, req, nearest);
    DispatchAdmitted(st, uid, i, conn, req, nearest, now);
    assert Seat(st.users[i], Unresolved, conn) == st.users[i].(isOnline := true, socketId := Some(conn));
    assert st.rooms + Touched(Unresolved) == st.rooms;
  }

  /** The join events of an unresolved join: none is an error, and the
      caller is told it joined no room. */
  lemma AnnounceNowhere(uid: UserId, conn: ConnId, users: seq<User>)
    ensures var out := Announce(Unresolved, uid, conn, users, None);
      && |out| == 4
      && (forall j :: 0 <= j < |out| ==> !IsError(out[j]))
      && out[3] == Emit(ToConn(conn), RoomJoined(None, Joined))
  {
  }

  /** Joining an existing room raises its member count by one, and the
      count the room is told about includes the newcomer. */
  lemma ExistingJoinCountsNewcomer(st: Store, uid: UserId, i: nat, conn: ConnId, req: JoinRequest, nearest: Option<RoomKey>, now: int)
    requires Admissible(st, uid, i, req) && st.users[i].assignedRoom.None?
    requires FineRoomId(req) in st.rooms
    ensures var k: RoomKey := FineRoomId(req);
            var r := Dispatch(st, uid, conn, req, nearest, now);
      && AssignedCount(r.0.users, k) == AssignedCount(st.users, k) + 1
      && r.1[0] == Emit(ToRoom(Some(k)), RoomInfo(Some(k), Some(AssignedCount(r.0.users, k))))
      && AssignedCount(r.0.users, k) >= 1
  {
    var k: RoomKey := FineRoomId(req);
    var u := st.users[i];
    var u' := Seat(u, Existing(k), conn);
    CountUpdate(st.users, i, u', (v: User) => v.assignedRoom == Some(k));
  }

  // ---------------------------------------------------------------------
  // Properties of leaveRoom

  /** Leaving takes the user out of the room's member and online counts. */
  lemma LeaveRoomCounts(st: Store, uid: UserId, i: nat, conn: ConnId, hasCallback: bool)
    requires FindUser(st.users, uid) == Some(i) && st.users[i].assignedRoom.Some?
    ensures var k := st.users[i].assignedRoom.value;
            var st' := LeaveRoom(st, uid, conn, hasCallback).0;
      && AssignedCount(st'.users, k) + 1 == AssignedCount(st.users, k)
      && OnlineCount(st'.users, k) + (if st.users[i].isOnline then 1 else 0) == OnlineCount(st.users, k)
  {
    var k := st.users[i].assignedRoom.value;
    var u' := st.users[i].(assignedRoom := None, isOnline := false, socketId := None);
    CountUpdate(st.users, i, u', (v: User) => v.assignedRoom == Some(k));
    CountUpdate(st.users, i, u', (v: User) => v.assignedRoom == Some(k) && v.isOnline);
  }

  /** `leaveRoom` empties presence; `joinMyRooms` restores the room and the
      online flag but not the socket id. */
  lemma LeaveThenReturn(st: Store, uid: UserId, i: nat, conn: ConnId)
    requires FindUser(st.users, uid) == Some(i) && st.users[i].assignedRoom.Some?
    requires st.users[i].assignedRoom.value in st.users[i].myRooms
    ensures var k := st.users[i].assignedRoom;
            var st1 := LeaveRoom(st, uid, conn, false).0;
            var st2 := JoinMyRooms(st1, uid, conn, k).0;
      && st2.users[i] == st.users[i].(isOnline := true, socketId := None)
  {
    var st1 := LeaveRoom(st, uid, conn, false).0;
    FindUserAfterUpdate(st.users, uid, i, st1.users[i]);
  }
}
