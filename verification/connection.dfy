/** The connection-level `disconnect` handler of the socket server, run after
    the video-chat one registered before it: the same partner cleanup a
    second time, the user's join-attempt window dropped, and the user marked
    offline in the store. */
module Connection {
  import opened Common
  import opened Models
  import opened Store
  import RateLimit
  import opened Rooms
  import opened Pairing

  /** Everything a connection's handlers share: the store, the join-attempt
      windows and the video-chat state. */
  datatype Server = Server(rooms: RoomState, video: Video)

  /** `findByIdAndUpdate(uid, { isOnline: false, socketId: null })`, then a
      `userOffline` announcement to the room the user is still assigned to. */
  function MarkOffline(st: Store, uid: UserId): (r: (Store, seq<Emission>))
    ensures r.0.rooms == st.rooms && r.0.messages == st.messages && r.0.reports == st.reports
    ensures OthersUnchanged(st.users, r.0.users, uid)
    ensures FindUser(st.users, uid).None? ==> r == (st, [])
    ensures FindUser(st.users, uid).Some? ==> (
      var u := st.users[FindUser(st.users, uid).value];
      && r.0.users[FindUser(st.users, uid).value] == u.(isOnline := false, socketId := None)
      && (r.1 != [] <==> u.assignedRoom.Some?)
      && (u.assignedRoom.Some? ==> r.1 == [Emit(ToRoom(u.assignedRoom), UserOffline(uid))]))
  {
    match FindUser(st.users, uid)
    case None => (st, [])
    case Some(i) =>
      var u := st.users[i].(isOnline := false, socketId := None);
      (st.(users := st.users[i := u]),
       if u.assignedRoom.Some? then [Emit(ToRoom(u.assignedRoom), UserOffline(uid))] else [])
  }

  /** Both `disconnect` handlers of connection `s`, authenticated as `uid`,
      in registration order. */
  function OnDisconnect(sv: Server, s: ConnId, uid: UserId): (r: (Server, seq<Emission>))
    ensures s !in r.0.video.queue && s !in r.0.video.partners
    ensures r.0.video == Disconnect(sv.video, s).0
    ensures uid != "" ==>
      r.0.rooms.store == MarkOffline(sv.rooms.store, uid).0
      && r.1 == Disconnect(sv.video, s).1 + MarkOffline(sv.rooms.store, uid).1
    ensures uid != "" ==> uid !in r.0.rooms.attempts
    ensures forall v :: v != uid ==> (v in r.0.rooms.attempts <==> v in sv.rooms.attempts)
    ensures uid == "" ==> r.0.rooms == sv.rooms && r.1 == Disconnect(sv.video, s).1
    ensures s in sv.video.partners ==>
      && |r.1| >= 1 && r.1[0] == Emit(ToConn(sv.video.partners[s]), PartnerLeft)
      && forall j :: 1 <= j < |r.1| ==> r.1[j].event != PartnerLeft
    ensures s !in sv.video.partners ==> forall j :: 0 <= j < |r.1| ==> r.1[j].event != PartnerLeft
  {
    var (v1, out1) := Disconnect(sv.video, s);
    var (v2, out2) := Disconnect(v1, s);
    DisconnectIdempotent(sv.video, s);
    if uid != "" then
      var (st', out3) := MarkOffline(sv.rooms.store, uid);
      (Server(RoomState(st', sv.rooms.attempts - {uid}), v2), out1 + out2 + out3)
    else
      (Server(sv.rooms, v2), out1 + out2)
  }

  /** Unlike `leaveRoom`, a disconnect keeps the user's room: only presence
      is cleared, so the sticky branch of `joinRoom` seats the user in the
      same room on reconnect. */
  lemma DisconnectKeepsRoom(sv: Server, s: ConnId, uid: UserId, i: nat)
    requires uid != "" && FindUser(sv.rooms.store.users, uid) == Some(i)
    ensures var u := sv.rooms.store.users[i];
            var u' := OnDisconnect(sv, s, uid).0.rooms.store.users[i];
      && u' == u.(isOnline := false, socketId := None)
      && u'.assignedRoom == u.assignedRoom && u'.myRooms == u.myRooms
  {
  }

  /** A reconnect starts with an empty join-attempt window, so its first
      `joinRoom` is admitted however many attempts came before. */
  lemma ReconnectStartsFresh(sv: Server, s: ConnId, uid: UserId, now: int)
    requires uid != ""
    ensures var attempts := OnDisconnect(sv, s, uid).0.rooms.attempts;
      RateLimit.WindowOf(attempts, uid) == [] && RateLimit.CheckAndRecord(attempts, uid, now).1
  {
  }

  /** The durable side of a disconnect, in counts: the user drops out of the
      online count of their room and stays in its member count. */
  lemma DisconnectCounts(sv: Server, s: ConnId, uid: UserId, i: nat, k: RoomKey)
    requires uid != "" && FindUser(sv.rooms.store.users, uid) == Some(i)
    requires sv.rooms.store.users[i].assignedRoom == Some(k)
    ensures var users := sv.rooms.store.users;
            var users' := OnDisconnect(sv, s, uid).0.rooms.store.users;
      && AssignedCount(users', k) == AssignedCount(users, k)
      && MemberCount(users', k) == MemberCount(users, k)
      && OnlineCount(users', k) + (if users[i].isOnline then 1 else 0) == OnlineCount(users, k)
  {
    var users := sv.rooms.store.users;
    var u' := users[i].(isOnline := false, socketId := None);
    CountUnchanged(users, i, u', (v: User) => v.assignedRoom == Some(k));
    CountUnchanged(users, i, u', (v: User) => k in v.myRooms);
    CountUpdate(users, i, u', (v: User) => v.assignedRoom == Some(k) && v.isOnline);
  }
}
