/** The durable store the handlers read and write (the user, message and
    report collections and the set of known room keys) and the events the
    handlers emit to sockets. */
module Store {
  import opened Common
  import opened Models

  /** The persisted state. `users` is the user collection in natural order,
      so `findOne` is "the first match". `rooms` holds every room key that
      has a document in the message collection: a posted message, or the
      marker document the create-if-absent upsert writes. `reports` is the
      report collection; a report's id is its position. */
  datatype Store = Store(
    users: seq<User>,
    rooms: set<RoomKey>,
    messages: seq<Message>,
    reports: seq<Report>)

  /** Every document of the message collection belongs to a known room. */
  predicate RoomsRecorded(st: Store) {
    forall j :: 0 <= j < |st.messages| ==> st.messages[j].room in st.rooms
  }

  // ---------------------------------------------------------------------
  // Lookups

  /** `findOne(filter)`: the position of the first user satisfying `p`. */
  function FirstWhere(users: seq<User>, p: User -> bool): (r: Option<nat>)
    ensures r.Some? ==> r.value < |users| && p(users[r.value])
    ensures r.Some? ==> forall j :: 0 <= j < r.value ==> !p(users[j])
    ensures r.None? ==> forall j :: 0 <= j < |users| ==> !p(users[j])
  {
    if users == [] then None
    else if p(users[0]) then Some(0)
    else match FirstWhere(users[1..], p)
      case None => None
      case Some(i) => Some(i + 1)
  }

  /** `findById(id)`. */
  function FindUser(users: seq<User>, id: UserId): (r: Option<nat>)
    ensures r.Some? ==> r.value < |users| && users[r.value].id == id
    ensures r.Some? ==> forall j :: 0 <= j < r.value ==> users[j].id != id
    ensures r.None? ==> forall j :: 0 <= j < |users| ==> users[j].id != id
  {
    FirstWhere(users, (u: User) => u.id == id)
  }

  /** `findOne({ email })`. */
  function FindByEmail(users: seq<User>, email: string): (r: Option<nat>)
    ensures r.Some? ==> r.value < |users| && users[r.value].email == email
    ensures r.Some? ==> forall j :: 0 <= j < r.value ==> users[j].email != email
    ensures r.None? ==> forall j :: 0 <= j < |users| ==> users[j].email != email
  {
    FirstWhere(users, (u: User) => u.email == email)
  }

  /** Ids are the collection's primary key. */
  predicate UniqueIds(users: seq<User>) {
    forall i, j :: 0 <= i < j < |users| ==> users[i].id != users[j].id
  }

  /** The unique index on `email`. */
  predicate UniqueEmails(users: seq<User>) {
    forall i, j :: 0 <= i < j < |users| ==> users[i].email != users[j].email
  }

  // ---------------------------------------------------------------------
  // Counting (`countDocuments`)

  function CountWhere(users: seq<User>, p: User -> bool): (n: nat)
    ensures n <= |users|
  {
    if users == [] then 0 else (if p(users[0]) then 1 else 0) + CountWhere(users[1..], p)
  }

  /** Replacing one document changes a count only by that document's own
      contribution. */
  lemma {:induction false} CountUpdate(users: seq<User>, i: nat, u: User, p: User -> bool)
    requires i < |users|
    ensures CountWhere(users[i := u], p)
         == CountWhere(users, p) - (if p(users[i]) then 1 else 0) + (if p(u) then 1 else 0)
  {
    if i > 0 {
      assert users[i := u][1..] == users[1..][i - 1 := u];
      CountUpdate(users[1..], i - 1, u, p);
    } else {
      assert users[i := u][1..] == users[1..];
    }
  }

  /** Counts are unchanged when no document's membership changes. */
  lemma {:induction false} CountUnchanged(users: seq<User>, i: nat, u: User, p: User -> bool)
    requires i < |users| && p(u) == p(users[i])
    ensures CountWhere(users[i := u], p) == CountWhere(users, p)
  {
    CountUpdate(users, i, u, p);
  }

  lemma {:induction false} CountAppend(users: seq<User>, u: User, p: User -> bool)
    ensures CountWhere(users + [u], p) == CountWhere(users, p) + (if p(u) then 1 else 0)
  {
    if users != [] {
      assert (users + [u])[1..] == users[1..] + [u];
      CountAppend(users[1..], u, p);
    }
  }

  /** A count is positive as soon as one document matches. */
  lemma {:induction false} CountPositive(users: seq<User>, i: nat, p: User -> bool)
    requires i < |users| && p(users[i])
    ensures CountWhere(users, p) >= 1
  {
    if i > 0 {
      CountPositive(users[1..], i - 1, p);
    }
  }

  /** `find(filter)`: the matching documents in collection order. */
  function Select(users: seq<User>, p: User -> bool): (r: seq<User>)
    ensures forall k :: 0 <= k < |r| ==> r[k] in users && p(r[k])
    ensures forall j :: 0 <= j < |users| && p(users[j]) ==> users[j] in r
  {
    if users == [] then []
    else if p(users[0]) then [users[0]] + Select(users[1..], p)
    else Select(users[1..], p)
  }

  /** `find(filter).length == countDocuments(filter)`. */
  lemma {:induction false} SelectCount(users: seq<User>, p: User -> bool)
    ensures |Select(users, p)| == CountWhere(users, p)
  {
    if users != [] {
      SelectCount(users[1..], p);
    }
  }

  /** `countDocuments({ myRooms: { $in: [room] } })`. */
  function MemberCount(users: seq<User>, room: RoomKey): nat {
    CountWhere(users, (u: User) => room in u.myRooms)
  }

  /** `countDocuments({ assignedRoom: room })`. */
  function AssignedCount(users: seq<User>, room: RoomKey): nat {
    CountWhere(users, (u: User) => u.assignedRoom == Some(room))
  }

  /** `countDocuments({ assignedRoom: room, isOnline: true })`. */
  function OnlineCount(users: seq<User>, room: RoomKey): nat {
    CountWhere(users, (u: User) => u.assignedRoom == Some(room) && u.isOnline)
  }

  // ---------------------------------------------------------------------
  // Socket events

  /** `socket.emit` goes to one connection; `io.to(room).emit` to a room.
      `io.to(undefined)` reaches nobody, and is kept as `ToRoom(None)`. */
  datatype Target = ToConn(conn: ConnId) | ToRoom(room: Option<RoomKey>)

  datatype SignalKind = Offer | Answer | IceCandidate

  datatype Event =
    | Error(message: string)
    | RoomInfo(room: Option<RoomKey>, members: Option<nat>)
    | RoomJoined(room: Option<RoomKey>, message: string)
    | UserJoined(user: UserId, conn: ConnId)
    | NewMember(user: UserId, conn: ConnId, room: Option<RoomKey>)
    | UserLeft(user: UserId, conn: ConnId)
    | UserOffline(user: UserId)
    | Ack(success: bool, message: string)
    | PartnerFound
    | WaitingForPartner
    | PartnerLeft
    | Signal(kind: SignalKind, payload: string)
    | Posted(posted: Message)
    | MessageSent
    | Mentioned(text: string, from: string, inRoom: RoomKey)
    | ReportSuccess

  datatype Emission = Emit(to: Target, event: Event)

  /** The emissions carrying an error. */
  predicate IsError(e: Emission) {
    e.event.Error?
  }

  /** The emissions that reach anyone other than `conn`. */
  predicate Broadcasts(out: seq<Emission>, conn: ConnId) {
    exists i :: 0 <= i < |out| && out[i].to != ToConn(conn)
  }

  /** `socket.emit('error', { message })`: an error for the caller alone. */
  function Reply(conn: ConnId, message: string): seq<Emission> {
    [Emit(ToConn(conn), Error(message))]
  }

  /** An HTTP answer of a REST handler: the status code and the `message`
      of its JSON body. */
  datatype Response = Response(code: nat, message: string)
}
