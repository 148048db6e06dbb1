/** The chat REST controller: a room's message history one page at a time,
    a room's member list, and the caller's rooms with member and online
    counts. */
module History {
  import opened Common
  import opened Models
  import opened Store
  import Rooms

  // ---------------------------------------------------------------------
  // Ordering by creation time

  predicate SortedByTime(s: seq<Message>) {
    forall i, j :: 0 <= i < j < |s| ==> s[i].createdAt <= s[j].createdAt
  }

  /** Insert `m` after every message not newer than it. */
  function InsertByTime(m: Message, s: seq<Message>): (r: seq<Message>)
    requires SortedByTime(s)
    ensures SortedByTime(r)
    ensures multiset(r) == multiset(s) + multiset{m}
  {
    if s == [] then [m]
    else if m.createdAt < s[0].createdAt then [m] + s
    else
      var tail := InsertByTime(m, s[1..]);
      InsertAfterFirst(s, m, tail);
      [s[0]] + tail
  }

  /** The step of the insertion: the first message is not newer than
      anything the rest of the insertion produced. */
  lemma InsertAfterFirst(s: seq<Message>, m: Message, tail: seq<Message>)
    requires s != [] && SortedByTime(s) && SortedByTime(tail) && s[0].createdAt <= m.createdAt
    requires multiset(tail) == multiset(s[1..]) + multiset{m}
    ensures SortedByTime([s[0]] + tail)
    ensures multiset([s[0]] + tail) == multiset(s) + multiset{m}
  {
    forall k | 0 <= k < |tail|
      ensures s[0].createdAt <= tail[k].createdAt
    {
      assert tail[k] in multiset(tail);
      if tail[k] != m {
        assert tail[k] in multiset(s[1..]);
        var j :| 0 <= j < |s[1..]| && s[1..][j] == tail[k];
        assert s[j + 1] == tail[k];
      }
    }
    assert s == [s[0]] + s[1..];
  }

  /** `sort({ createdAt: 1 })`, modelled as a stable insertion sort. */
  function SortByTime(s: seq<Message>): (r: seq<Message>)
    ensures SortedByTime(r)
    ensures multiset(r) == multiset(s)
  {
    if s == [] then []
    else
      var n := |s| - 1;
      assert s == s[..n] + [s[n]];
      InsertByTime(s[n], SortByTime(s[..n]))
  }

  /** The history query: messages of `room`, and with `before` only those
      created strictly earlier. */
  predicate Matches(m: Message, room: string, before: Option<int>) {
    m.room == room && (before.None? || m.createdAt < before.value)
  }

  function Matching(msgs: seq<Message>, room: string, before: Option<int>): (r: seq<Message>)
    ensures forall k :: 0 <= k < |r| ==> r[k] in msgs && Matches(r[k], room, before)
    ensures forall j :: 0 <= j < |msgs| && Matches(msgs[j], room, before) ==> msgs[j] in r
  {
    if msgs == [] then []
    else if Matches(msgs[0], room, before) then [msgs[0]] + Matching(msgs[1..], room, before)
    else Matching(msgs[1..], room, before)
  }

  // ---------------------------------------------------------------------
  // getHistory

  datatype History =
    | HistoryBadRequest
    | HistoryError
    | Page(messages: seq<Message>, hasMore: bool, nextCursor: Option<int>)

  function Min(a: int, b: int): int {
    if a <= b then a else b
  }

  /** `find(...).sort(...).limit(limit + 1)` on the sorted matches, then the
      extra message dropped: the page and whether there was more. */
  function Fetch(sorted: seq<Message>, limit: nat): (r: (seq<Message>, bool))
    ensures r.1 <==> |sorted| > limit
    ensures r.1 ==> r.0 == sorted[..limit]
    ensures !r.1 ==> r.0 == sorted
  {
    var fetched := sorted[..Min(limit + 1, |sorted|)];
    var hasMore := |fetched| > limit;
    (if hasMore then fetched[..|fetched| - 1] else fetched, hasMore)
  }

  /** `getHistory`: the oldest `limit + 1` matching messages are fetched,
      `hasMore` says whether that is more than `limit`, and the extra one is
      dropped. With `limit` zero and something to fetch, the cursor is read
      from an empty page and the handler fails. */
  function GetHistory(msgs: seq<Message>, roomId: Option<string>, before: Option<int>, limit: nat): (r: History)
    ensures r.HistoryBadRequest? <==> !Given(roomId)
    ensures r.HistoryError? <==> Given(roomId) && limit == 0 && Matching(msgs, roomId.value, before) != []
    ensures r.Page? ==>
      var sorted := SortByTime(Matching(msgs, roomId.value, before));
      && |r.messages| <= limit && |r.messages| <= |sorted|
      && (r.hasMore <==> |sorted| > limit)
      && r.messages == sorted[..|r.messages|]
      && (!r.hasMore ==> r.messages == sorted)
      && (r.hasMore ==> |r.messages| == limit && r.nextCursor == Some(r.messages[0].createdAt))
      && (!r.hasMore ==> r.nextCursor.None?)
  {
    if !Given(roomId) then HistoryBadRequest
    else
      var sorted := SortByTime(Matching(msgs, roomId.value, before));
      var (page, hasMore) := Fetch(sorted, limit);
      if hasMore && page == [] then HistoryError
      else Page(page, hasMore, if hasMore then Some(page[0].createdAt) else None)
  }

  /** The page size when the query gives no `limit`. */
  const DefaultLimit: nat := 50

  /** `getHistory` with the query's `limit`, 50 when absent: the default
      never meets the empty-page failure. */
  function GetHistoryWith(msgs: seq<Message>, roomId: Option<string>, before: Option<int>, limit: Option<nat>)
    : (r: History)
    ensures r.Page? ==> |r.messages| <= limit.GetOr(DefaultLimit)
    ensures Given(roomId) && limit.None? ==> r.Page?
  {
    GetHistory(msgs, roomId, before, limit.GetOr(DefaultLimit))
  }

  /** Appending a document adds it to the query's result exactly when it
      matches. */
  lemma {:induction false} MatchingAppend(msgs: seq<Message>, m: Message, room: string, before: Option<int>)
    ensures Matching(msgs + [m], room, before)
         == Matching(msgs, room, before) + (if Matches(m, room, before) then [m] else [])
    decreases |msgs|
  {
    if msgs == [] {
      assert msgs + [m] == [m];
    } else {
      assert (msgs + [m])[0] == msgs[0];
      assert (msgs + [m])[1..] == msgs[1..] + [m];
      MatchingAppend(msgs[1..], m, room, before);
    }
  }

  /** A room without documents has no history. */
  lemma {:induction false} NoneMatching(msgs: seq<Message>, room: string, before: Option<int>)
    requires forall j :: 0 <= j < |msgs| ==> msgs[j].room != room
    ensures Matching(msgs, room, before) == []
    decreases |msgs|
  {
    if msgs != [] {
      NoneMatching(msgs[1..], room, before);
    }
  }

  /** A room whose only document is the marker of its creation has that
      marker as its whole history: one entry with no sender and no content,
      and no further page. */
  lemma MarkerIsHistory(msgs: seq<Message>, k: RoomKey, t: int, limit: nat)
    requires forall j :: 0 <= j < |msgs| ==> msgs[j].room != k
    requires limit >= 1
    ensures GetHistory(msgs + [Marker(k, t)], Some(k), None, limit) == Page([Marker(k, t)], false, None)
  {
    var m := Marker(k, t);
    MatchingAppend(msgs, m, k, None);
    NoneMatching(msgs, k, None);
    assert Matching(msgs + [m], k, None) == [m];
    assert [m][..0] == [];
    assert SortByTime([m]) == [m];
  }

  /** A city join that creates room `k` in a store whose documents all
      belong to known rooms leaves the creation marker as the room's whole
      history. */
  lemma CityJoinHistoryIsMarker(st: Store, uid: UserId, i: nat, conn: ConnId, req: Rooms.JoinRequest,
                                nearest: Option<RoomKey>, now: int, limit: nat)
    requires Rooms.Admissible(st, uid, i, req) && st.users[i].assignedRoom.None?
    requires req.isCity && Rooms.FineRoomId(req) != "" && Rooms.FineRoomId(req) !in st.rooms
    requires RoomsRecorded(st) && limit >= 1
    ensures var k: RoomKey := Rooms.FineRoomId(req);
            var st' := Rooms.Dispatch(st, uid, conn, req, nearest, now).0;
      GetHistory(st'.messages, Some(k), None, limit) == Page([Marker(k, now)], false, None)
  {
    var k: RoomKey := Rooms.FineRoomId(req);
    Rooms.DispatchAdmitted(st, uid, i, conn, req, nearest, now);
    assert Rooms.Resolve(st.users[i], k, req, st.rooms, nearest) == Rooms.City(k);
    MarkerIsHistory(st.messages, k, now, limit);
  }

  /** Every message on a page belongs to the room, predates `before`, and
      the page is in creation order. */
  lemma PageMatchesQuery(msgs: seq<Message>, room: string, before: Option<int>, limit: nat)
    requires room != ""
    ensures var r := GetHistory(msgs, Some(room), before, limit);
      r.Page? ==>
        && SortedByTime(r.messages)
        && forall k :: 0 <= k < |r.messages| ==> r.messages[k] in msgs && Matches(r.messages[k], room, before)
  {
    var r := GetHistory(msgs, Some(room), before, limit);
    if r.Page? {
      var m := Matching(msgs, room, before);
      var sorted := SortByTime(m);
      forall k | 0 <= k < |r.messages|
        ensures r.messages[k] in msgs && Matches(r.messages[k], room, before)
      {
        assert r.messages[k] == sorted[k];
        assert sorted[k] in multiset(m);
      }
    }
  }

  /** The cursor is the oldest matching message: no matching message is
      older. */
  lemma CursorIsOldest(msgs: seq<Message>, room: string, before: Option<int>, limit: nat)
    requires room != ""
    ensures var r := GetHistory(msgs, Some(room), before, limit);
      r.Page? && r.hasMore ==>
        forall j :: 0 <= j < |msgs| && Matches(msgs[j], room, before) ==> r.nextCursor.value <= msgs[j].createdAt
  {
    var r := GetHistory(msgs, Some(room), before, limit);
    if r.Page? && r.hasMore {
      var m := Matching(msgs, room, before);
      var sorted := SortByTime(m);
      forall j | 0 <= j < |msgs| && Matches(msgs[j], room, before)
        ensures r.nextCursor.value <= msgs[j].createdAt
      {
        assert msgs[j] in multiset(sorted);
        var k :| 0 <= k < |sorted| && sorted[k] == msgs[j];
        assert r.messages[0] == sorted[0];
      }
    }
  }

  /** Asking for the page before the returned cursor yields nothing: the
      page already holds the oldest messages, so the cursor does not lead
      further back in the history. */
  lemma FollowingCursorIsEmpty(msgs: seq<Message>, room: string, before: Option<int>, limit: nat)
    requires room != ""
    requires var r := GetHistory(msgs, Some(room), before, limit); r.Page? && r.hasMore
    ensures var r := GetHistory(msgs, Some(room), before, limit);
      GetHistory(msgs, Some(room), r.nextCursor, limit) == Page([], false, None)
  {
    var r := GetHistory(msgs, Some(room), before, limit);
    var c := r.nextCursor.value;
    CursorIsOldest(msgs, room, before, limit);
    var m := Matching(msgs, room, before);
    assert r.messages[0] in msgs && Matches(r.messages[0], room, before) by {
      PageMatchesQuery(msgs, room, before, limit);
    }
    var m' := Matching(msgs, room, Some(c));
    if m' != [] {
      var x := m'[0];
      assert x in msgs && x.room == room && x.createdAt < c;
      var j :| 0 <= j < |msgs| && msgs[j] == x;
      assert Matches(msgs[j], room, before);
    }
    assert SortByTime(m') == [];
  }

  // ---------------------------------------------------------------------
  // getMemberList and getMyRooms

  /** The fields of a member the list projects. */
  datatype Member = Member(id: UserId, name: string, profilePic: string, isOnline: bool)

  function ToMember(u: User): Member {
    Member(u.id, u.name, u.profilePic, u.isOnline)
  }

  function Project(us: seq<User>): (r: seq<Member>)
    ensures |r| == |us|
    ensures forall k :: 0 <= k < |us| ==> r[k] == ToMember(us[k])
  {
    if us == [] then [] else [ToMember(us[0])] + Project(us[1..])
  }

  datatype MemberList = MembersBadRequest | NoMembers | Members(members: seq<Member>)

  function HoldsRoom(room: string): User -> bool {
    (u: User) => room in u.myRooms
  }

  /** `getMemberList`: the users holding the room in `myRooms`, in
      collection order, or a 404 when there are none. */
  function GetMemberList(users: seq<User>, roomId: Option<string>): (r: MemberList)
    ensures r.MembersBadRequest? <==> !Given(roomId)
    ensures Given(roomId) ==>
      var held := Select(users, HoldsRoom(roomId.value));
      && (r.NoMembers? <==> held == [])
      && (r.Members? ==> r.members == Project(held))
  {
    if !Given(roomId) then MembersBadRequest
    else
      var held := Select(users, HoldsRoom(roomId.value));
      if held == [] then NoMembers else Members(Project(held))
  }

  /** A listed member holds the room, and every holder is listed. */
  lemma MemberListExact(users: seq<User>, room: string)
    requires room != ""
    ensures var r := GetMemberList(users, Some(room));
      && (r.Members? ==> forall k :: 0 <= k < |r.members| ==>
            exists j :: 0 <= j < |users| && room in users[j].myRooms && r.members[k] == ToMember(users[j]))
      && (forall j :: 0 <= j < |users| && room in users[j].myRooms ==> r.Members? && ToMember(users[j]) in r.members)
  {
    var held := Select(users, HoldsRoom(room));
    var r := GetMemberList(users, Some(room));
    if r.Members? {
      forall k | 0 <= k < |r.members|
        ensures exists j :: 0 <= j < |users| && room in users[j].myRooms && r.members[k] == ToMember(users[j])
      {
        assert held[k] in users && HoldsRoom(room)(held[k]);
        var j :| 0 <= j < |users| && users[j] == held[k];
      }
    }
    forall j | 0 <= j < |users| && room in users[j].myRooms
      ensures r.Members? && ToMember(users[j]) in r.members
    {
      assert HoldsRoom(room)(users[j]);
      var k :| 0 <= k < |held| && held[k] == users[j];
      assert r.members[k] == ToMember(users[j]);
    }
  }

  /** One entry of `getMyRooms`. */
  datatype RoomSummary = RoomSummary(name: RoomKey, member: nat, online: nat)

  function Summaries(users: seq<User>, rooms: seq<RoomKey>): (r: seq<RoomSummary>)
    ensures |r| == |rooms|
    ensures forall k :: 0 <= k < |rooms| ==>
      r[k] == RoomSummary(rooms[k], MemberCount(users, rooms[k]), OnlineCount(users, rooms[k]))
  {
    if rooms == [] then []
    else [RoomSummary(rooms[0], MemberCount(users, rooms[0]), OnlineCount(users, rooms[0]))] + Summaries(users, rooms[1..])
  }

  datatype MyRooms = NoToken | MyRoomsError | Rooms(rooms: seq<RoomSummary>)

  /** `getMyRooms`: one entry per room of the caller's `myRooms`, in order.
      An unknown caller makes the handler read a field of nothing and fail. */
  function GetMyRooms(users: seq<User>, uid: Option<UserId>): (r: MyRooms)
    ensures r.NoToken? <==> !Given(uid)
    ensures r.MyRoomsError? <==> Given(uid) && FindUser(users, uid.value).None?
    ensures r.Rooms? ==> r.rooms == Summaries(users, users[FindUser(users, uid.value).value].myRooms)
  {
    if !Given(uid) then NoToken
    else match FindUser(users, uid.value)
      case None => MyRoomsError
      case Some(i) => Rooms(Summaries(users, users[i].myRooms))
  }

  /** Every room listed by `getMyRooms` counts the caller among its
      members, and its member count is the length of its member list. */
  lemma MyRoomsCountsAgree(users: seq<User>, uid: UserId, k: nat)
    requires uid != "" && GetMyRooms(users, Some(uid)).Rooms?
    requires k < |GetMyRooms(users, Some(uid)).rooms|
    ensures var s := GetMyRooms(users, Some(uid)).rooms[k];
      && s.member >= 1
      && GetMemberList(users, Some(s.name)).Members?
      && |GetMemberList(users, Some(s.name)).members| == s.member
  {
    var i := FindUser(users, uid).value;
    var room := users[i].myRooms[k];
    CountPositive(users, i, (u: User) => room in u.myRooms);
    SelectCount(users, HoldsRoom(room));
    assert HoldsRoom(room) == (u: User) => room in u.myRooms;
  }
}
