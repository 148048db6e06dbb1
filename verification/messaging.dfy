/** The chat socket handlers that write documents: `newMessage` (guards,
    tagging, mention extraction, push recipients, mention notices) and
    `reportAbuse`. */
module Messaging {
  import opened Common
  import opened Models
  import opened Store
  import opened Mentions
  import RoomKeys

  const NotInAnyRoom := "You are not in any room"
  const EmptyMessage := "Message cannot be empty"
  const BlockedFromSending := "You are blocked from sending messages."
  const NotInThisRoom := "You are not in this room"
  const ProcessingError := "Error processing message"
  const InvalidReport := "Invalid report data"
  const ReportingError := "Error reporting abuse"

  /** The `newMessage` payload. An absent `content` makes the mention scan,
      which runs before every guard, throw. */
  datatype Post = Post(content: Option<string>, roomId: Option<string>, tag: Option<string>)

  /** What `newMessage` leaves behind: the store, the socket events, and the
      users a push notification is sent to. */
  datatype Delivery = Delivery(store: Store, out: seq<Emission>, push: seq<UserId>)

  /** `` tag ? `[${tag}] ${content}` : content ``. */
  function Tagged(content: string, tag: Option<string>): (r: string)
    ensures Given(tag) ==> r == "[" + tag.value + "] " + content
    ensures !Given(tag) ==> r == content
    ensures content != "" ==> r != ""
  {
    if Given(tag) then "[" + tag.value + "] " + content else content
  }

  /** `tag || 'normal'` after the schema's enum check; `None` when the tag
      names no message type and saving would fail validation. */
  function TypeOfTag(tag: Option<string>): (r: Option<MessageType>)
    ensures !Given(tag) ==> r == Some(DefaultMessageType)
    ensures Given(tag) && r.Some? ==> MessageTypeName(r.value) == tag.value
    ensures forall t :: tag == Some(MessageTypeName(t)) ==> r == Some(t)
  {
    if Given(tag) then ParseMessageType(tag.value) else Some(Normal)
  }

  /** Push recipients: members of the room holding a device token, other
      than the sender, in collection order. */
  predicate PushEligible(u: User, room: string, sender: UserId) {
    room in u.myRooms && u.fcmToken.Some? && u.id != sender
  }

  /** `id` belongs to a user the push goes to. */
  predicate EligibleId(users: seq<User>, id: UserId, room: string, sender: UserId) {
    exists j :: 0 <= j < |users| && users[j].id == id && PushEligible(users[j], room, sender)
  }

  lemma EligibleIdTail(users: seq<User>, id: UserId, room: string, sender: UserId)
    requires users != [] && EligibleId(users[1..], id, room, sender)
    ensures EligibleId(users, id, room, sender)
  {
    var j :| 0 <= j < |users[1..]| && users[1..][j].id == id && PushEligible(users[1..][j], room, sender);
    assert users[j + 1] == users[1..][j];
  }

  function PushRecipients(users: seq<User>, room: string, sender: UserId): (r: seq<UserId>)
    ensures sender !in r
    ensures forall k :: 0 <= k < |r| ==> EligibleId(users, r[k], room, sender)
    ensures forall j :: 0 <= j < |users| && PushEligible(users[j], room, sender) ==> users[j].id in r
    ensures |r| <= |users|
  {
    if users == [] then []
    else
      var tail := PushRecipients(users[1..], room, sender);
      assert forall k :: 0 <= k < |tail| ==> EligibleId(users, tail[k], room, sender) by {
        forall k | 0 <= k < |tail| ensures EligibleId(users, tail[k], room, sender) {
          EligibleIdTail(users, tail[k], room, sender);
        }
      }
      assert forall j :: 1 <= j < |users| ==> users[j] == users[1..][j - 1];
      if PushEligible(users[0], room, sender) then [users[0].id] + tail else tail
  }

  /** A user a `youWereMentioned` notice goes to: mentioned, and holding a
      socket id. */
  predicate Notified(u: User, ids: seq<string>) {
    u.id in ids && u.socketId.Some?
  }

  function NoticeFor(u: User, text: string, from: string, room: RoomKey): Emission
    requires u.socketId.Some?
  {
    Emit(ToConn(u.socketId.value), Mentioned(text, from, room))
  }

  /** `youWereMentioned` notices: one per mentioned user with a socket, in
      collection order, carrying the untagged text. */
  function MentionNotices(users: seq<User>, ids: seq<string>, text: string, from: string, room: RoomKey)
    : (r: seq<Emission>)
    ensures |r| <= |users|
    ensures forall e :: e in r ==>
      exists j :: 0 <= j < |users| && Notified(users[j], ids) && e == NoticeFor(users[j], text, from, room)
    ensures forall j :: 0 <= j < |users| && Notified(users[j], ids) ==> NoticeFor(users[j], text, from, room) in r
  {
    if users == [] then []
    else
      var tail := MentionNotices(users[1..], ids, text, from, room);
      assert forall e :: e in tail ==>
        exists j :: 0 <= j < |users| && Notified(users[j], ids) && e == NoticeFor(users[j], text, from, room) by {
        forall e | e in tail
          ensures exists j :: 0 <= j < |users| && Notified(users[j], ids) && e == NoticeFor(users[j], text, from, room)
        {
          var j :| 0 <= j < |users[1..]| && Notified(users[1..][j], ids) && e == NoticeFor(users[1..][j], text, from, room);
          assert users[j + 1] == users[1..][j];
        }
      }
      if Notified(users[0], ids) then [NoticeFor(users[0], text, from, room)] + tail
      else tail
  }

  /** Every guard of `newMessage` passes: the sender exists, sits in a room,
      sent non-blank content, is not blocked, addressed the room it sits
      in; then `create` succeeds: any tag names a message type, and every
      mentioned id casts to an `ObjectId`. */
  predicate Accepts(st: Store, uid: UserId, p: Post) {
    && p.content.Some?
    && FindUser(st.users, uid).Some?
    && var u := st.users[FindUser(st.users, uid).value];
    && u.assignedRoom.Some?
    && Trim(p.content.value) != ""
    && !u.isBlocked
    && p.roomId == Some(u.assignedRoom.value)
    && TypeOfTag(p.tag).Some?
    && AllObjectIds(Extract(p.content.value))
  }

  /** The guards of `newMessage` in order: the error of the first that
      fails. An absent content fails in the mention scan before any guard;
      an unknown tag, or a mentioned id that is not an `ObjectId`, fails
      when the message is created. */
  function Refusal(st: Store, uid: UserId, p: Post): (r: Option<string>)
    ensures r.None? <==> Accepts(st, uid, p)
  {
    if p.content.None? then Some(ProcessingError)
    else match FindUser(st.users, uid)
      case None => Some(NotInAnyRoom)
      case Some(i) =>
        var u := st.users[i];
        if u.assignedRoom.None? then Some(NotInAnyRoom)
        else if p.content.value == "" || Trim(p.content.value) == "" then Some(EmptyMessage)
        else if u.isBlocked then Some(BlockedFromSending)
        else if p.roomId != Some(u.assignedRoom.value) then Some(NotInThisRoom)
        else if TypeOfTag(p.tag).None? then Some(ProcessingError)
        else if !AllObjectIds(Extract(p.content.value)) then Some(ProcessingError)
        else None
  }

  /** An accepted message: stored, broadcast, acknowledged, pushed to the
      other members and announced to the mentioned users. */
  function Deliver(st: Store, uid: UserId, conn: ConnId, p: Post, now: int): (r: Delivery)
    requires Accepts(st, uid, p)
    ensures r.store.users == st.users && r.store.reports == st.reports
    ensures
      var u := st.users[FindUser(st.users, uid).value];
      var room := u.assignedRoom.value;
      && |r.store.messages| == |st.messages| + 1
      && r.store.messages[..|st.messages|] == st.messages
      && var m := r.store.messages[|st.messages|];
      && m.sender == uid && m.room == room && m.createdAt == now
      && m.content == Tagged(p.content.value, p.tag)
      && Some(m.messageType) == TypeOfTag(p.tag)
      && m.mentions == CastIds(Extract(p.content.value))
      && MessageValid(m)
      && r.store.rooms == st.rooms + {room}
      && |r.out| >= 2
      && r.out[0] == Emit(ToRoom(Some(room)), Posted(m))
      && r.out[1] == Emit(ToConn(conn), MessageSent)
      && r.out[2..] == MentionNotices(st.users, m.mentions, p.content.value, u.name, room)
      && r.push == PushRecipients(st.users, room, uid)
  {
    var content := p.content.value;
    var u := st.users[FindUser(st.users, uid).value];
    var room := u.assignedRoom.value;
    var ids := CastIds(Extract(content));
    var m := Message(uid, room, Tagged(content, p.tag), TypeOfTag(p.tag).value, [], ids, now);
    var out := [Emit(ToRoom(Some(room)), Posted(m)), Emit(ToConn(conn), MessageSent)]
               + MentionNotices(st.users, ids, content, u.name, room);
    assert out[2..] == MentionNotices(st.users, ids, content, u.name, room);
    Delivery(st.(messages := st.messages + [m], rooms := st.rooms + {room}), out,
             PushRecipients(st.users, room, uid))
  }

  /** The `newMessage` handler of `uid` on connection `conn` at `now`: a
      refused message is an error for the sender alone and writes nothing. */
  function NewMessage(st: Store, uid: UserId, conn: ConnId, p: Post, now: int): (r: Delivery)
    ensures !Accepts(st, uid, p) ==>
      r.store == st && r.push == [] && r.out == Reply(conn, Refusal(st, uid, p).value)
    ensures Accepts(st, uid, p) ==> r == Deliver(st, uid, conn, p, now)
  {
    match Refusal(st, uid, p)
    case Some(e) => Delivery(st, Reply(conn, e), [])
    case None => Deliver(st, uid, conn, p, now)
  }

  /** The error a refused message gets, in guard order: being in no room
      is reported before empty content, empty content before the blocked
      flag, and the blocked flag before a room mismatch. */
  lemma GuardOrder(st: Store, uid: UserId, conn: ConnId, p: Post, now: int, i: nat)
    requires p.content.Some? && FindUser(st.users, uid) == Some(i)
    ensures var u := st.users[i];
            var r := NewMessage(st, uid, conn, p, now);
      && (u.assignedRoom.None? ==> r.out == Reply(conn, NotInAnyRoom))
      && (u.assignedRoom.Some? && Trim(p.content.value) == "" ==> r.out == Reply(conn, EmptyMessage))
      && (u.assignedRoom.Some? && Trim(p.content.value) != "" && u.isBlocked ==> r.out == Reply(conn, BlockedFromSending))
  {
  }

  /** The sender never receives a push notification for their own message,
      and every other member of the room with a device token does. */
  lemma SenderNotPushed(st: Store, uid: UserId, conn: ConnId, p: Post, now: int)
    requires Accepts(st, uid, p)
    ensures var r := NewMessage(st, uid, conn, p, now);
            var room := st.users[FindUser(st.users, uid).value].assignedRoom.value;
      && uid !in r.push
      && forall j :: 0 <= j < |st.users| && room in st.users[j].myRooms && st.users[j].fcmToken.Some? && st.users[j].id != uid
           ==> st.users[j].id in r.push
  {
  }

  /** The tag prefix is recoverable: a tagged message starts with the
      bracketed tag and ends with the text as typed. */
  lemma TaggedParts(content: string, tag: string)
    requires tag != ""
    ensures var t := Tagged(content, Some(tag));
      && t[..|tag| + 3] == "[" + tag + "] "
      && t[|tag| + 3..] == content
  {
  }

  /** A message written with the mention markup is stored with exactly the
      ids it mentions, in order, each in its cast (lower-case) form. */
  lemma MessageMentionsRoundTrip(st: Store, uid: UserId, conn: ConnId, ps: seq<Piece>, roomId: Option<string>,
                                 tag: Option<string>, now: int)
    requires forall i :: 0 <= i < |ps| ==> '@' !in ps[i].text && Mentionable(ps[i].name, ps[i].id)
    ensures var p := Post(Some(Compose(ps)), roomId, tag);
      Accepts(st, uid, p) ==> NewMessage(st, uid, conn, p, now).store.messages[|st.messages|].mentions == CastIds(Ids(ps))
  {
    var p := Post(Some(Compose(ps)), roomId, tag);
    ExtractCompose(ps);
    if Accepts(st, uid, p) {
      StoredMentions(st, uid, conn, p, now);
    }
  }

  /** An accepted message is stored with the casts of the ids its content
      mentions. */
  lemma StoredMentions(st: Store, uid: UserId, conn: ConnId, p: Post, now: int)
    requires Accepts(st, uid, p)
    ensures NewMessage(st, uid, conn, p, now).store.messages[|st.messages|].mentions == CastIds(Extract(p.content.value))
  {
  }

  // ---------------------------------------------------------------------
  // reportAbuse

  /** The `reportAbuse` payload. */
  datatype AbuseReport = AbuseReport(reportedUser: Option<string>, reason: Option<string>,
                                     roomId: Option<string>, context: Option<string>)

  /** `context ? context : 'chat'` after the schema's enum check. */
  function ContextOf(context: Option<string>): (r: Option<ReportContext>)
    ensures !Given(context) ==> r == Some(DefaultContext)
    ensures Given(context) && r.Some? ==> ContextName(r.value) == context.value
  {
    if Given(context) then ParseContext(context.value) else Some(ChatContext)
  }

  /** The guards of `reportAbuse` pass: the caller exists and sits in a
      room, and the reported user and a non-blank reason are given. */
  predicate AbuseGuardsPass(st: Store, uid: UserId, a: AbuseReport) {
    && FindUser(st.users, uid).Some?
    && st.users[FindUser(st.users, uid).value].assignedRoom.Some?
    && Given(a.reportedUser) && Given(a.reason) && Trim(a.reason.value) != ""
  }

  /** `ReportModel.create` accepts the report: the context is in the enum,
      and the reported user and the room id (stored as the reported message
      id) cast to `ObjectId`s. */
  predicate AbuseCasts(a: AbuseReport) {
    && ContextOf(a.context).Some?
    && a.reportedUser.Some? && IsObjectId(a.reportedUser.value)
    && (Given(a.roomId) ==> IsObjectId(a.roomId.value))
  }

  /** The reports `reportAbuse` files. */
  predicate AbuseValid(st: Store, uid: UserId, a: AbuseReport) {
    AbuseGuardsPass(st, uid, a) && AbuseCasts(a)
  }

  /** The socket `reportAbuse` handler. The room id is stored as the
      reported message id, so `create` fails unless the room key happens to
      be 24 hexadecimal digits; there is no check for an earlier report. */
  function ReportAbuse(st: Store, uid: UserId, conn: ConnId, a: AbuseReport): (r: (Store, seq<Emission>))
    ensures r.0.users == st.users && r.0.messages == st.messages && r.0.rooms == st.rooms
    ensures !AbuseValid(st, uid, a) ==> r.0 == st && |r.1| == 1 && IsError(r.1[0]) && r.1[0].to == ToConn(conn)
    ensures AbuseGuardsPass(st, uid, a) && !AbuseCasts(a) ==> r == (st, Reply(conn, ReportingError))
    ensures AbuseValid(st, uid, a) ==> (
      && |r.0.reports| == |st.reports| + 1 && r.0.reports[..|st.reports|] == st.reports
      && var rep := r.0.reports[|st.reports|];
      && rep.reportedBy == uid && rep.reportedUser == CastId(a.reportedUser.value)
      && rep.reason == Trim(a.reason.value) && ReportValid(rep) && IsTrimmed(rep.reason)
      && rep.reportedMessageId == (if Given(a.roomId) then Some(CastId(a.roomId.value)) else None)
      && Some(rep.context) == ContextOf(a.context)
      && rep.status == DefaultStatus && rep.note.None?
      && r.1 == [Emit(ToConn(conn), ReportSuccess)])
  {
    match FindUser(st.users, uid)
    case None => (st, Reply(conn, NotInAnyRoom))
    case Some(i) =>
      if st.users[i].assignedRoom.None? then (st, Reply(conn, NotInAnyRoom))
      else if !Given(a.reportedUser) || !Given(a.reason) || Trim(a.reason.value) == "" then
        (st, Reply(conn, InvalidReport))
      else if !AbuseCasts(a) then (st, Reply(conn, ReportingError))
      else
          var ctx := ContextOf(a.context).value;
          var rep := Report(uid, CastId(a.reportedUser.value), Trim(a.reason.value),
                            if Given(a.roomId) then Some(CastId(a.roomId.value)) else None, None, ctx, Pending);
          (st.(reports := st.reports + [rep]), [Emit(ToConn(conn), ReportSuccess)])
  }

  /** Unlike the REST endpoint, the socket path files the same complaint
      as often as it is sent. */
  lemma AbuseReportsNotDeduplicated(st: Store, uid: UserId, conn: ConnId, a: AbuseReport)
    requires AbuseValid(st, uid, a)
    ensures var st1 := ReportAbuse(st, uid, conn, a).0;
            var st2 := ReportAbuse(st1, uid, conn, a).0;
      |st2.reports| == |st.reports| + 2 && st2.reports[|st.reports|] == st2.reports[|st.reports| + 1]
  {
  }

  /** A room key that is not 24 hexadecimal digits, such as `lagos`, makes
      the report fail its cast: the caller gets the generic error and
      nothing is stored. */
  lemma RoomKeyReportFails(st: Store, uid: UserId, conn: ConnId, a: AbuseReport)
    requires AbuseGuardsPass(st, uid, a)
    requires Given(a.roomId) && !IsObjectId(a.roomId.value)
    ensures ReportAbuse(st, uid, conn, a) == (st, Reply(conn, ReportingError))
  {
  }

  /** No geo room name is an `ObjectId`: its first letter is `G`. So an
      abuse report sent from a geo room is never filed. */
  lemma GeoRoomReportFails(st: Store, uid: UserId, conn: ConnId, a: AbuseReport, x: int, y: int)
    requires AbuseGuardsPass(st, uid, a) && a.roomId == Some(RoomKeys.GeoRoomName(x, y))
    ensures ReportAbuse(st, uid, conn, a) == (st, Reply(conn, ReportingError))
  {
    var g := RoomKeys.GeoRoomName(x, y);
    assert g[0] == 'G';
    assert !IsHexDigit(g[0]);
  }

  /** A mention whose id is not an `ObjectId` makes the message's `create`
      fail: an otherwise acceptable message is refused with the generic
      error and nothing is written. */
  lemma UncastMentionRefused(st: Store, uid: UserId, conn: ConnId, p: Post, now: int)
    requires p.content.Some? && FindUser(st.users, uid).Some?
    requires var u := st.users[FindUser(st.users, uid).value];
      u.assignedRoom.Some? && Trim(p.content.value) != "" && !u.isBlocked && p.roomId == Some(u.assignedRoom.value)
    requires !AllObjectIds(Extract(p.content.value))
    ensures NewMessage(st, uid, conn, p, now) == Delivery(st, Reply(conn, ProcessingError), [])
  {
  }
}
