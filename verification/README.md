# MapMates chat server — a Dafny model of its decision logic

This project models the server behind MapMates, a location-based chat. Users are seated in chat rooms in one of these ways:
- they return to a room they already sit in (the sticky room);
- they name an existing room;
- they create a city room;
- they land in the room of the nearest seated user;
- a `GeoRoom_<x>_<y>` room is created for them.

The server handles these operations:
- room joins, guarded by a per-user rate limiter;
- posting messages with `@[name](id)` mentions;
- abuse reports and an administrator's decision on them;
- random video-chat pairing;
- account management over REST.

Every handler is a pure function. It maps the durable store (users, rooms, messages, reports) and the in-memory state (join-attempt windows, the video queue and partner map) to a new state. It also returns either the emitted socket events or an HTTP status code with a message. Contracts and lemmas state what each handler guarantees, and the README rows below tie each one to the JavaScript it models.

Modules, one per file:
- `Common`: JavaScript truthiness, `trim`, ASCII `toLowerCase`, integer `toString`, sequence helpers.
- `Models`: the user, report and message records; their enums and defaults; `generateOTP`.
- `Store`: the store; `findOne`, `find` and `countDocuments`; socket events; REST responses.
- `RateLimit`: the sliding window in front of `joinRoom`.
- `RoomKeys`: room-id normalisation and geo room names.
- `Rooms`: `joinRoom`, `joinMyRooms`, `leaveRoom`.
- `Mentions`: the mention regex as a parser.
- `Messaging`: `newMessage` and `reportAbuse`.
- `Pairing`: the video-chat queue, signal relay, `leave` and `disconnect`.
- `Connection`: the connection-level `disconnect` handler.
- `History`: `getHistory`, `getMemberList`, `getMyRooms`.
- `Reports`: the report controller.
- `Accounts`: the user controller.

Conventions:
- The database is a value. `users` is a sequence in collection order, so `findOne`/`findById` is the first match, `find` is a filter that keeps order, and `countDocuments` is a count.
- `rooms` is the set of room keys that have a document in the message collection.
- A report id is the report's position in the report collection.
- Password hashing (`hash`) and comparison (`matches`) are parameters.
- The geo query's answer (`nearest`), the random draw of `generateOTP` and the clock (`now`) are also parameters.
- The delayed re-pair of `leave` is an explicit second step (`Pairing.Rejoin`).

## Model

| member | source | states |
|---|---|---|
| Models.ParseRoleName | src/models/user.model.js:10 | every role's name parses back to that role |
| Models.ParseRole | src/models/user.model.js:10 | a string parses only to the role whose name it is, so no other string is a role |
| Models.ParseContextName | src/models/report.model.js:9-13 | each context name parses back to its value |
| Models.ParseContext | src/models/report.model.js:9-13 | a string parses only to the context whose name it is |
| Models.ParseMessageTypeName | src/models/message.model.js:7-11 | each message-type name parses back to its value |
| Models.ParseMessageType | src/models/message.model.js:7-11 | a string parses only to the message type whose name it is |
| Models.Marker | src/socket/socket.ctrl.js:78-82 | the document a room upsert inserts carries only the room and its creation time, so it is not a valid chat message |
| Models.NewUser | src/models/user.model.js:5-37 | a new user has role user, is neither blocked nor online, sits in no room, has no rooms, no socket and no OTP, has the default picture and the point [0, 0]; the required fields make it valid |
| Models.GenerateOtp | src/models/user.model.js:59-64 | the code is `floor(1000 + draw * 9000)` for a draw in [0, 1): a number from 1000 to 9999 written as four decimal digits, stored with expiry now + 600000 ms; nothing else in the user changes |
| Models.CastId | src/models/report.model.js:5 | the cast of an id to an `ObjectId` path keeps its length and writes every hex digit in lower case, so ids differing only in hex case are stored alike |
| Models.CastKeepsObjectId | src/models/report.model.js:5 | a string casts exactly when its lower-case form does, and casting twice is casting once |
| Models.CastIds | src/models/message.model.js:18 | an array of ids is cast element by element, in order |
| Common.Trim | src/socket/socket.ctrl.js:13 | `trim` returns an infix with no space at either end, cut only from runs of space characters |
| Common.TrimEmptyIffAllSpace | src/socket/socket.ctrl.js:238 | `content.trim() === ''` holds exactly when every character is white space |
| Common.ToLower | src/socket/socket.ctrl.js:13 | `toLowerCase` keeps the length and maps each character on its own |
| Common.NatToStringInjective | src/models/user.model.js:60 | two numbers with the same decimal rendering are equal |
| Common.FourDigits | src/models/user.model.js:60 | a number from 1000 to 9999 is written with four digits |
| Common.IntToStringInjective | src/socket/socket.ctrl.js:106 | two integers with the same rendering (sign included) are equal |
| Common.Without | src/socket/socket.ctrl.js:412 | `filter(id => id !== x)` removes every occurrence of x, keeps every other element, and changes nothing when x is absent |
| Common.WithoutKeepsNoDup | src/socket/socket.js:68 | filtering keeps a duplicate-free queue free of duplicates |
| Store.FirstWhere | src/socket/socket.ctrl.js:25 | `findOne` answers the first matching document, and answers none only when no document matches |
| Store.FindUser | src/socket/socket.ctrl.js:25 | `findById(id)` answers the first user with that id, or none when there is no such user |
| Store.FindByEmail | src/controllers/user.ctrl.js:42 | `findOne({ email })` answers the first user with that email, or none |
| Store.CountUpdate | src/socket/socket.ctrl.js:66 | replacing one document changes a count by that document's own change of membership only |
| Store.CountAppend | src/controllers/user.ctrl.js:48-53 | appending a document adds its own membership to a count |
| Store.CountPositive | src/controllers/chat.ctrl.js:86 | a count is at least 1 once one document matches |
| Store.Select | src/controllers/chat.ctrl.js:51 | `find(filter)` keeps only matching documents and leaves none of them out |
| Store.SelectCount | src/controllers/chat.ctrl.js:51 | the length of `find(filter)` is `countDocuments(filter)` |
| RateLimit.Prune | src/socket/socket.ctrl.js:18 | the filter keeps exactly the entries of the last 60000 ms |
| RateLimit.PruneCompose | src/socket/socket.ctrl.js:18 | pruning at an earlier time and then at a later one is pruning at the later one |
| RateLimit.Attempt | src/socket/socket.ctrl.js:17-23 | the new window is the pruned window plus now; the attempt is admitted exactly when fewer than 3 recent entries preceded it |
| RateLimit.CheckAndRecord | src/socket/socket.ctrl.js:17-21 | the attempt is recorded whether or not it is admitted; its time is the last entry; no other user's window changes |
| RateLimit.WindowIsRecentHistory | src/socket/socket.ctrl.js:17-21 | for nondecreasing attempt times, the window is exactly the attempts of the last minute, refused ones included |
| RateLimit.AdmittedIffFewRecent | src/socket/socket.ctrl.js:21 | an attempt is admitted exactly when fewer than 3 earlier attempts fall in the minute before it |
| RateLimit.FourthInAMinuteRefused | src/socket/socket.ctrl.js:21-23 | a fourth attempt within one minute of the third-last is refused |
| RateLimit.AtMostThreePerMinute | src/socket/socket.ctrl.js:21-23 | an admitted attempt is at least a minute after every attempt three or more places before it |
| RateLimit.QuietMinuteAdmits | src/socket/socket.ctrl.js:18-21 | after a minute of silence the next attempt is admitted |
| RateLimit.BoundaryExample | src/socket/socket.ctrl.js:17-23 | attempts at t, t+1, t+2 pass, t+3 is refused, t+61000 passes |
| RoomKeys.NormalizeIdempotent | src/socket/socket.ctrl.js:13 | normalising a room id twice is normalising it once |
| RoomKeys.NormalizeIgnoresCase | src/socket/socket.ctrl.js:13 | lower-casing an id before the lookup does not change its key, so ids that differ only in letter case meet in one room |
| RoomKeys.NormalizeIgnoresPadding | src/socket/socket.ctrl.js:13 | white space around an id does not change its key |
| RoomKeys.NormalizeHasNoUpper | src/socket/socket.ctrl.js:13 | a normalised id holds no upper-case ASCII letter |
| RoomKeys.TrimToLower | src/socket/socket.ctrl.js:13 | trimming and lower-casing commute |
| RoomKeys.GeoRoomNameInjective | src/socket/socket.ctrl.js:106 | two coordinate pairs share a geo room name exactly when they are equal |
| RoomKeys.GeoRoomNotNameable | src/socket/socket.ctrl.js:106 | no requested id normalises to a `GeoRoom_` name, because normalisation removes the capital G, so a geo room cannot be joined by id |
| Rooms.AddRoom | src/socket/socket.ctrl.js:55-57 | the room is added only when absent: the old list is a prefix, the room is in the result, and no duplicate appears |
| Rooms.Resolve | src/socket/socket.ctrl.js:31-118 | the branch order: sticky room first, then an existing room by normalised id, then a city room, then the nearest user's room, then a new geo room; both geo branches need a coordinate pair; otherwise no room |
| Rooms.Dispatch | src/socket/socket.ctrl.js:25-150 | after the rate check only the caller's record changes and rooms are only added; the message collection gains at most one document, a `{room, createdAt}` marker for a city or new geo room that had none; an error reply leaves the store as it was, and otherwise the caller is marked online on this connection |
| Rooms.Upsert | src/socket/socket.ctrl.js:78-82 | the `$setOnInsert` upsert appends a marker exactly for a city or new geo room without a document, and otherwise leaves the collection as it was |
| Rooms.DispatchKeepsRoomsRecorded | src/socket/socket.ctrl.js:76-118 | every document in the message collection stays in a known room after a join |
| Rooms.JoinRoom | src/socket/socket.ctrl.js:17-28 | the attempt is recorded before the user lookup; a refused attempt is an error to the caller and leaves the store unchanged |
| Rooms.GuardsRefuse | src/socket/socket.ctrl.js:25-28 | a missing user, a blocked user, or neither room id nor coordinates gives an error and no change, even for a user who has a sticky room; and a single-event reply comes out exactly in those three cases, leaving the store as it was |
| Rooms.AdmittedJoinSeats | src/socket/socket.ctrl.js:31-150 | an admitted join leaves the user online on this connection and seated in the room its branch resolves (in no room when none resolves); a room joined by name or created is recorded and added to `myRooms`; every event but the last goes, error-free, to that room, and the last tells the caller which room it joined |
| Rooms.AnnounceReaches | src/socket/socket.ctrl.js:33-150 | the join events of every branch go to the seated room except the last, which goes to the caller and names the room |
| Rooms.StickyWins | src/socket/socket.ctrl.js:31-47 | a user with a room goes back to it whatever id or coordinates were sent; only presence changes |
| Rooms.OnlyNormalFormMatters | src/socket/socket.ctrl.js:13 | requests whose ids normalise alike have the same effect |
| Rooms.DispatchReadsFineId | src/socket/socket.ctrl.js:13-118 | `joinRoom` reads the requested id only through its normal form |
| Rooms.SeatMyRooms | src/socket/socket.ctrl.js:50-118 | the existing, city and new-geo branches add the room when absent; the sticky, nearby-geo and no-room branches leave `myRooms` as it was |
| Rooms.DispatchGrowsMyRooms | src/socket/socket.ctrl.js:50-118 | every user's `myRooms` only grows and never gains a duplicate |
| Rooms.BranchRecordsRoom | src/socket/socket.ctrl.js:50-118 | the existing, city and new-geo branches assign and record the room; the nearby-geo branch assigns the nearest room and leaves `myRooms` unchanged |
| Rooms.NearbyRoomNotReturnable | src/socket/socket.ctrl.js:102-104 | a user seated by the nearby-geo branch does not get the room in `myRooms`, so cannot come back to it with `joinMyRooms` |
| Rooms.ResolvesNowhere | src/socket/socket.ctrl.js:50-121 | an unknown id that is not a city, sent without a coordinate pair, resolves to no room rather than to an error |
| Rooms.UnresolvedSeatsNowhere | src/socket/socket.ctrl.js:120-150 | in that case the user is only marked online, no room is created, and the join events go to no room |
| Rooms.AnnounceNowhere | src/socket/socket.ctrl.js:125-150 | those events are four non-error events, the last telling the caller it joined no room |
| Rooms.ExistingJoinCountsNewcomer | src/socket/socket.ctrl.js:50-67 | joining an existing room raises its `assignedRoom` count by one, and the room is told the count that includes the newcomer |
| Rooms.JoinMyRooms | src/socket/socket.ctrl.js:157-178 | a return succeeds only when the raw id is in `myRooms`, and otherwise is an error with no change; on success it sets `assignedRoom` and `isOnline` but not `socketId` |
| Rooms.AckIf | src/socket/socket.ctrl.js:193-214 | without a callback nothing is sent; with one, the caller alone receives exactly one acknowledgement carrying the outcome and its message |
| Rooms.LeaveRoom | src/socket/socket.ctrl.js:189-220 | the store is unchanged exactly when the user is unknown or in no room, and then only the "You are not in any room" error is acknowledged; otherwise presence is cleared, `myRooms` is kept, `userLeft` goes first to the room just left, and the callback gets success |
| Rooms.LeaveRoomCounts | src/socket/socket.ctrl.js:198-204 | leaving takes the user out of the room's `assignedRoom` count and, if online, out of its online count |
| Rooms.LeaveThenReturn | src/socket/socket.ctrl.js:165-204 | leaving and then returning restores the room and the online flag but not the socket id |
| Mentions.IndexOf | src/socket/socket.ctrl.js:228 | the position of the first occurrence of a character, or none when it does not occur |
| Mentions.MatchAt | src/socket/socket.ctrl.js:228 | a match spans at least the seven characters of `@[x](y)` and captures a non-empty id without `)` |
| Mentions.Extract | src/socket/socket.ctrl.js:228-230 | every extracted id is non-empty and holds no `)` |
| Mentions.MatchRendered | src/socket/socket.ctrl.js:228 | rendered markup is matched whole and yields its id |
| Mentions.MatchIsRendered | src/socket/socket.ctrl.js:228 | every match is rendered markup of some name and the captured id |
| Mentions.ExtractRendered | src/socket/socket.ctrl.js:229-230 | a mention at the front is extracted, then the scan goes on behind it |
| Mentions.ExtractPlain | src/socket/socket.ctrl.js:229 | text without `@` yields no mention and does not disturb later ones |
| Mentions.ExtractCompose | src/socket/socket.ctrl.js:228-230 | a message composed of plain text and mentions yields exactly the mentioned ids, in order |
| Mentions.NoAtNoMentions | src/socket/socket.ctrl.js:229 | content without `@` mentions nobody |
| Mentions.EmptyNameIgnored | src/socket/socket.ctrl.js:228 | `@[](id)` is not a mention |
| Messaging.Tagged | src/socket/socket.ctrl.js:253 | a truthy tag prefixes `[tag] `; without a tag the content is kept; non-empty content stays non-empty |
| Messaging.TaggedParts | src/socket/socket.ctrl.js:253 | the tag prefix and the typed text can be recovered from a tagged message |
| Messaging.TypeOfTag | src/socket/socket.ctrl.js:255 | no tag means normal; a tag is the message type it names, and an unknown tag is rejected |
| Messaging.PushRecipients | src/socket/socket.ctrl.js:273-279 | push goes exactly to the room members with a device token, never to the sender |
| Messaging.MentionNotices | src/socket/socket.ctrl.js:295-305 | one notice for each user whose id is among the cast mention ids and who has a socket, and no other notice |
| Messaging.Refusal | src/socket/socket.ctrl.js:223-310 | a message is refused exactly when a guard fails; an unknown tag or a mentioned id that is not an ObjectId fails the `create` with the generic error |
| Messaging.Deliver | src/socket/socket.ctrl.js:251-305 | an accepted message is appended with its sender, room, tagged content, type and the cast forms of the ids it mentions; it is broadcast to the room and acknowledged to the sender; the mention notices and push recipients follow; users and reports stay unchanged |
| Messaging.NewMessage | src/socket/socket.ctrl.js:223-312 | a refused message is an error to the sender and writes nothing; an accepted one is delivered |
| Messaging.GuardOrder | src/socket/socket.ctrl.js:234-248 | being in no room is reported before empty content, and empty content before the blocked flag |
| Messaging.SenderNotPushed | src/socket/socket.ctrl.js:279 | the sender gets no push, and every other member with a device token does |
| Messaging.MessageMentionsRoundTrip | src/socket/socket.ctrl.js:228-258 | an accepted message written with mention markup is stored with exactly the ids it mentions, in order, each in its cast lower-case form |
| Messaging.StoredMentions | src/socket/socket.ctrl.js:251-258 | an accepted message is stored with the casts of the ids its content mentions |
| Messaging.ContextOf | src/socket/socket.ctrl.js:333 | no context means chat; a given context is the one it names |
| Messaging.ReportAbuse | src/socket/socket.ctrl.js:316-340 | it refuses an unknown caller, a caller in no room, a missing reported user, or a missing or blank reason, and changes nothing; a reported user or room id that is not an ObjectId, or an unknown context, fails the `create` with "Error reporting abuse" and changes nothing; otherwise it appends one pending report with the cast reported user, the trimmed reason, the cast room id as message id and the context, and acknowledges to the caller |
| Messaging.AbuseReportsNotDeduplicated | src/socket/socket.ctrl.js:328-335 | the socket path files the same complaint twice when it is sent twice |
| Messaging.RoomKeyReportFails | src/socket/socket.ctrl.js:328-338 | a report sent with a room key that is not an ObjectId, such as a city name, is never filed |
| Messaging.GeoRoomReportFails | src/socket/socket.ctrl.js:328-338 | a report sent from a geo room is never filed, because a geo room name is not an ObjectId |
| Messaging.UncastMentionRefused | src/socket/socket.ctrl.js:251-310 | a mention whose id is not an ObjectId makes an otherwise acceptable message fail with "Error processing message", and nothing is written |
| Pairing.JoinQueue | src/socket/socket.ctrl.js:358-369 | `joinQueue` pairs with the head of the queue both ways, or waits at the tail of an empty queue |
| Pairing.JoinQueueKeepsWellFormed | src/socket/socket.ctrl.js:358-369 | an idle connection joining keeps partners symmetric and the queue duplicate-free and unpaired |
| Pairing.Relay | src/socket/socket.ctrl.js:371-384 | a signal is forwarded to the sender's partner only, and to nobody without one |
| Pairing.RelayAfterJoin | src/socket/socket.ctrl.js:359-384 | once `joinQueue` pairs a connection with the head of the queue, a signal from either side reaches exactly the other; an unpaired connection left waiting reaches nobody |
| Pairing.RelayAfterLeave | src/socket/socket.ctrl.js:371-400 | after `leave` neither the leaver nor its former partner reaches anyone, and every other connection still reaches its partner |
| Pairing.Leave | src/socket/socket.ctrl.js:389-401 | the partner is told, both entries are removed, and the partner is remembered |
| Pairing.FirstOther | src/socket/socket.ctrl.js:409 | the first queued connection other than the last partner |
| Pairing.Rejoin | src/socket/socket.ctrl.js:404-424 | the connection pairs with the first queued connection other than its last partner, or waits; the memory is then cleared |
| Pairing.NoImmediateRematch | src/socket/socket.ctrl.js:406-414 | leaving a partner never re-pairs with that partner at once |
| Pairing.LeaveKeepsWellFormed | src/socket/socket.ctrl.js:389-401 | unpairing keeps the state well formed |
| Pairing.RejoinKeepsWellFormed | src/socket/socket.ctrl.js:404-424 | the re-pair of an idle connection keeps the state well formed |
| Pairing.LeaveAndRejoinKeepWellFormed | src/socket/socket.ctrl.js:389-425 | `leave` with its re-pair keeps the state well formed for a connection that is not waiting |
| Pairing.Disconnect | src/socket/socket.ctrl.js:427-435 | the partner is told; the partner map loses exactly the connection and its partner; the connection leaves the queue, which otherwise keeps its order |
| Pairing.DisconnectDoesNotRequeue | src/socket/socket.ctrl.js:427-435 | the partner of a disconnecting connection is neither paired nor waiting |
| Pairing.DisconnectKeepsWellFormed | src/socket/socket.ctrl.js:427-435 | a disconnect keeps the state well formed |
| Pairing.DisconnectIdempotent | src/socket/socket.ctrl.js:427-435 | running the cleanup again changes nothing and tells nobody |
| Pairing.WaitingLeaverPairsWithItself | src/socket/socket.ctrl.js:404-416 | a waiting connection that calls `leave` with nobody to avoid is paired with itself |
| Pairing.DuplicateQueueEntry | src/socket/socket.ctrl.js:358-420 | joining the queue three times and then leaving with its re-pair leaves one connection queued twice |
| Connection.MarkOffline | src/socket/socket.js:75-88 | the user is marked offline with no socket, and `userOffline` goes to the user's room exactly when there is one |
| Connection.OnDisconnect | src/socket/socket.js:58-93 | the video state is that of one cleanup and the second run tells nobody; the user is marked offline and their join window is dropped; the partner is told `partnerLeft` exactly once |
| Connection.DisconnectKeepsRoom | src/socket/socket.js:75-78 | unlike `leaveRoom`, a disconnect keeps `assignedRoom` and `myRooms` |
| Connection.ReconnectStartsFresh | src/socket/socket.js:72-73 | after a disconnect the next join attempt is admitted |
| Connection.DisconnectCounts | src/socket/socket.js:75-78 | a disconnect keeps the room's member counts and drops the user from its online count |
| History.InsertByTime | src/controllers/chat.ctrl.js:23 | inserting into a time-sorted list keeps it sorted and adds exactly the new message |
| History.SortByTime | src/controllers/chat.ctrl.js:23 | `sort({ createdAt: 1 })` returns a time-sorted permutation |
| History.Matching | src/controllers/chat.ctrl.js:15-18 | the query keeps exactly the room's messages strictly before `before` |
| History.Fetch | src/controllers/chat.ctrl.js:24-27 | fetching `limit + 1` and dropping the extra gives the first `limit` messages, and `hasMore` holds exactly when there were more |
| History.GetHistory | src/controllers/chat.ctrl.js:4-41 | a missing room is a 400; a page holds at most `limit` of the oldest matching documents, markers included, in time order; `hasMore` holds exactly when more matched; when it holds, the cursor is the time of the first document shown, and otherwise there is none; limit 0 with matches fails |
| History.GetHistoryWith | src/controllers/chat.ctrl.js:7 | without `limit` a page holds at most 50 messages and the handler does not fail |
| History.PageMatchesQuery | src/controllers/chat.ctrl.js:15-27 | every message on a page is from the room, predates `before`, and the page is sorted |
| History.CursorIsOldest | src/controllers/chat.ctrl.js:32 | the cursor is not later than any matching message |
| History.FollowingCursorIsEmpty | src/controllers/chat.ctrl.js:16-32 | asking for the page before the cursor returns nothing |
| History.MatchingAppend | src/controllers/chat.ctrl.js:15-18 | appending a document adds it to the query's result exactly when it matches |
| History.NoneMatching | src/controllers/chat.ctrl.js:15-18 | a room with no document matches nothing |
| History.MarkerIsHistory | src/controllers/chat.ctrl.js:4-41 | the history of a room whose only document is its marker is one page holding that marker, with no more and no cursor |
| History.CityJoinHistoryIsMarker | src/socket/socket.ctrl.js:76-82 | right after a city join creates a room, its history is that room's marker, which has no sender and no content |
| History.Project | src/controllers/chat.ctrl.js:51 | the member projection keeps the order and one entry per user |
| History.GetMemberList | src/controllers/chat.ctrl.js:42-69 | a missing room is a 400; no holder is a 404; otherwise the holders are projected in collection order |
| History.MemberListExact | src/controllers/chat.ctrl.js:51-57 | a listed member holds the room, and every holder is listed |
| History.Summaries | src/controllers/chat.ctrl.js:84-94 | one entry per room in order, with its member count and online count |
| History.GetMyRooms | src/controllers/chat.ctrl.js:70-104 | no token is the "provide the token" answer; an unknown user fails; otherwise the caller's rooms are summarised |
| History.MyRoomsCountsAgree | src/controllers/chat.ctrl.js:42-94 | each listed room counts the caller as a member, and its member count equals its member list's length |
| Reports.FindReport | src/controllers/report.ctrl.js:15 | the first report of the pair, or none when the pair has none; `create` looks the pair up with the reported id in its cast form, so the lookup ignores the hex case the client wrote |
| Reports.Create | src/controllers/report.ctrl.js:4-44 | a missing field is a 400; a reported user that is not an ObjectId fails the lookup (500); an existing pair, matched on the cast reported id, is a 200 "already reported"; a message id that is not an ObjectId or an unknown context fails the save (500); otherwise one pending report is appended (201) with the given reason, note and context and with the reported user and message id in their cast, lower-case form; only reports change, and only on 201 |
| Reports.CreateKeepsOnePerPair | src/controllers/report.ctrl.js:15-32 | the collection keeps at most one report per (reporter, reported) pair, with reported ids compared in their cast form |
| Reports.SecondReportRefused | src/controllers/report.ctrl.js:15-21 | filing a report again for the same reported user, even with its id written in a different hex case, answers "already reported" and stores nothing |
| Reports.CreateIgnoresHexCase | src/controllers/report.ctrl.js:15-32 | a report whose reported user and message id differ only in hex case is treated exactly alike: same status, same stored report |
| Reports.Decision | src/controllers/report.ctrl.js:83-90 | `block` resolves, any other action ignores, and neither is pending |
| Reports.Precheck | src/controllers/report.ctrl.js:47-74 | each guard has its own answer, in order: a non-admin is 403, a missing id or action 400, an unknown report 404, a decided report 400 "only pending"; nothing else is refused |
| Reports.TakeActionAsWritten | src/controllers/report.ctrl.js:45-102 | as written: the prechecks; then `block` is a 500 with no change, and any other action ignores the report |
| Reports.TakeAction | src/controllers/report.ctrl.js:45-102 | corrected: after the prechecks, a report whose reported user is missing is refused with no change; otherwise the report moves to its decision, and `block` also blocks the user |
| Reports.TakeActionStep | src/controllers/report.ctrl.js:70-91 | only the named report's status changes, and only out of pending |
| Reports.CreateStep | src/controllers/report.ctrl.js:23-32 | `create` only appends |
| Reports.TakeActionAsWrittenStep | src/controllers/report.ctrl.js:70-91 | `takeAction` as written changes at most the named report's status, and only out of pending |
| Reports.ReportAbuseStep | src/socket/socket.ctrl.js:328-336 | the socket's `reportAbuse` only appends |
| Reports.NeverBackToPending | src/controllers/report.ctrl.js:4-91 | whatever sequence of `create`, `takeAction` (as written or with the lookup awaited) and socket `reportAbuse` requests follows, a decided report never becomes pending again |
| Reports.DecisionIsFinal | src/controllers/report.ctrl.js:70-74 | acting on a decided report is a 400 with no change |
| Reports.BlockAsWrittenBlocksNobody | src/controllers/report.ctrl.js:76-86 | as written, `block` neither resolves the report nor blocks the user |
| Reports.BlockBlocks | src/controllers/report.ctrl.js:83-86 | corrected, `block` resolves the report and blocks the reported user |
| Accounts.Register | src/controllers/user.ctrl.js:33-72 | a missing field or a taken email is a 400 with no change; otherwise one user with defaults and the hashed password is appended (201) |
| Accounts.RegisterKeepsKeysUnique | src/controllers/user.ctrl.js:42-53 | registration keeps emails unique, and ids unique for a fresh id |
| Accounts.Login | src/controllers/user.ctrl.js:73-114 | success exactly when the email exists and the password matches; an unknown email and a wrong password get the same 401 |
| Accounts.RegisterThenLogin | src/controllers/user.ctrl.js:33-114 | a registered user logs in with the same credentials |
| Accounts.OrElse | src/controllers/user.ctrl.js:170-172 | `value \|\| current` keeps the current value for a falsy one |
| Accounts.Merge | src/controllers/user.ctrl.js:166-172 | name, email and role change only for truthy values, the picture only for an upload; an unknown role is rejected; nothing else changes |
| Accounts.UpdateProfile | src/controllers/user.ctrl.js:148-192 | no id is a 400 and an unknown user a 404; an invalid role or an email taken by another user is refused with no change; otherwise the merged user replaces the old one |
| Accounts.UpdateProfileKeepsEmailsUnique | src/controllers/user.ctrl.js:171-174 | emails stay unique across a profile update |
| Accounts.EmptyEditChangesNothing | src/controllers/user.ctrl.js:166-174 | an edit with nothing truthy is a 200 that changes nothing |
| Accounts.UpdateProfileIdempotent | src/controllers/user.ctrl.js:166-174 | the same edit twice is the same edit once |
| Accounts.UpdateStatus | src/controllers/user.ctrl.js:193-236 | missing fields are a 400 before a non-admin's 403; a target id that is not an ObjectId fails the lookup (500); an unknown target, looked up by its cast id, is a 404; otherwise the target is blocked exactly when the status is `block` |
| Accounts.UpdateStatusIgnoresHexCase | src/controllers/user.ctrl.js:209-224 | two spellings of the target id that differ only in hex case give the same answer and the same store |
| Accounts.BlockedCannotJoin | src/controllers/user.ctrl.js:198-215 | a user an administrator blocks, whatever hex case the administrator wrote the id in, is refused by `joinRoom` |
| Accounts.ResetChecked | src/controllers/user.ctrl.js:283-304 | succeeds exactly when the user exists, the old password matches and the new one has at least 6 characters; success replaces only the password, with the hash of the new one |
| Accounts.ResetPasswordAsWritten | src/controllers/user.ctrl.js:277-281 | as written, the guard's 400 is given exactly when both the id and the old password are missing, or the new password is missing |
| Accounts.ResetPassword | src/controllers/user.ctrl.js:273-319 | corrected: the 400 is given exactly when any of the three fields is missing; no request gets a 500; success needs a new password of at least 6 characters |
| Accounts.MissingOldPasswordAsWritten | src/controllers/user.ctrl.js:277-290 | a known user with no old password gets a 500 as written and the 400 once corrected |
| Accounts.OldPasswordCheckedFirst | src/controllers/user.ctrl.js:290-301 | a wrong old password is a 401 even when the new one is too short |
| Accounts.ResetThenLogin | src/controllers/user.ctrl.js:303-304 | after a reset the user logs in with the new password |
| Accounts.SendOtp | src/controllers/user.ctrl.js:320-351 | no email is a 400, an unknown one a 404; otherwise only that user gets a fresh code |
| Accounts.VerifyOtp | src/controllers/user.ctrl.js:352-393 | a mismatch is reported before expiry; an absent expiry never expires; success clears both OTP fields |
| Accounts.OtpIsSingleUse | src/controllers/user.ctrl.js:380-381 | a verified code is invalid when sent again |
| Accounts.SendThenVerify | src/controllers/user.ctrl.js:320-381 | a sent code verifies until ten minutes later and is expired after |
| Accounts.MismatchBeforeExpiry | src/controllers/user.ctrl.js:368-378 | a wrong code is "invalid" even when the stored one has expired |
| Accounts.ConcealDropsOnlySecrets | src/controllers/user.ctrl.js:435 | the projection drops exactly password, otp and otpExpiresAt |
| Accounts.ConcealAll | src/controllers/user.ctrl.js:435 | one listed user per user, in order |
| Accounts.GetAllUsers | src/controllers/user.ctrl.js:427-452 | non-admin is a 403, an empty collection a 404, otherwise every user without secrets |
| Accounts.ListingHidesSecrets | src/controllers/user.ctrl.js:435 | collections differing only in secrets are listed identically |
| Accounts.HaveRoom | src/controllers/user.ctrl.js:488-512 | no id is a 400, an unknown user a 404, otherwise whether `assignedRoom` is set |
| Accounts.HaveRoomFollowsLeaveAndReturn | src/controllers/user.ctrl.js:503-504 | after `leaveRoom` the answer is false, after `joinMyRooms` it is true |

## Left out

- Socket transport: delivery of events, socket rooms and the adapter's live `online` sizes. Events are an emitted list, and `online` fields are not modelled.
- The geo query (`$near` within 5000 m, newest first): it is the parameter `nearest`, an optional room.
- Mongo ObjectId casting is modelled for ids a client sends: a string casts when it is 24 hex digits (`Models.IsObjectId`), and the cast stores and compares its lower-case form (`Models.CastId`). This covers mention ids in `newMessage`, the reported user and room in `reportAbuse`, the reported user and message id in report `create`, and the target of `updateStatus`. Ids from the token or the database are taken in that canonical lower-case form. The 12-character string form that older drivers also cast is not modelled. A report id is a position in the collection.
- RoomKeys.GeoRoomName: coordinates are integers, so a JavaScript number such as 3.3792 and the way template literals render it (`GeoRoom_3.3792_6.5244`) are not modelled.
- RoomKeys.GeoRoomNameInjective: it is proved for integer coordinates only. For JavaScript numbers it also needs the rendering of a number to be injective, which is not modelled.
- The `before` query parameter is parsed with `new Date` (src/controllers/chat.ctrl.js:17). It is an integer time here, so an unparsable date (an invalid-date query and a 500 in the source) is not modelled.
- A nearest user whose `assignedRoom` is null: `leaveRoom` stores null (src/socket/socket.ctrl.js:201), and the geo query's `$exists: true` (src/socket/socket.ctrl.js:96) still matches it. `nearest` is an optional room key, so a match that yields a null room is not modelled.
- JWT signing and checking, bcrypt (the parameters `hash` and `matches`), Firebase push (only the recipient list is modelled), Cloudinary uploads (the parameter `imageUrl`).
- The console output of the OTP.
- Timers: the 500 ms delay of the re-pair after `leave` is the explicit step `Pairing.Rejoin`; nothing runs in between.
- Concurrency between connections and interleaved awaits.
- Rebinding of the module-level `queue` on disconnect (src/socket/socket.js:68): connections opened before and after a disconnect then hold different queue arrays. One shared queue is modelled.
- Pairing.Rejoin: `VideoChat` receives the queue as a parameter and reassigns that parameter when a re-pair takes a waiting connection out (src/socket/socket.ctrl.js:412) and on disconnect (src/socket/socket.ctrl.js:433). The filtered array is then seen only by the handlers of the connection that ran the reassignment; every other connection's handlers keep the old array, which still holds the removed entry. One shared queue is modelled, from which the removal is visible to everyone.
- Pairing.Disconnect: the queue removal at src/socket/socket.ctrl.js:433 rebinds only this connection's parameter, as described for `Pairing.Rejoin`; the model removes the connection from the one shared queue.
- Pairing.RejoinKeepsWellFormed: holds for the one shared queue of the model. With the per-connection arrays the source ends up with, a connection taken out by one re-pair can still be found waiting by another connection's handlers and be paired twice.
- Pairing.LeaveAndRejoinKeepWellFormed: holds for the one shared queue of the model, for the reason given for `Pairing.RejoinKeepsWellFormed`.
- Handlers outside the modelled core: `Typing`, `getUserProfile`, `saveLocation`, `forgotPassword`, `getAllRoomsByUser`, `SaveFCMToken`, `getAllReports`.
- `toLowerCase` beyond ASCII letters, and string lengths in UTF-16 code units. Both are taken character by character.
- `Number(limit)` on arbitrary query strings: `limit` is a natural number or absent.
- The stray `socket.emit` with an object for its event name in `joinMyRooms` (src/socket/socket.ctrl.js:180-183): it carries no event and is not modelled.
- The `myRooms.length < 0` branch of `getMyRooms`, which can never be taken.
- A thrown error inside a handler's `try` is modelled only where the code path reaches it: an absent content, an unknown enum value, limit 0, an unknown caller in `getMyRooms`, a missing old password.
- Accounts.Register: the database-assigned `newId` is a parameter; its freshness is assumed by Accounts.RegisterKeepsKeysUnique rather than modelled.
- Accounts.SendOtp: the code is not sent anywhere; only the stored code and expiry are modelled.
- Rooms.Dispatch: the `online` field of `roomInfo` is not carried; only the member count is.
- Reports.TakeAction: the warning to the user of an ignored report appears in the source only as a comment (src/controllers/report.ctrl.js:88), so no warning is modelled.

## Findings

| source | as written | input that shows it | evidently intended | confidence | as-written member | corrected member |
|---|---|---|---|---|---|---|
| src/controllers/report.ctrl.js:76-86 | `UserModel.findById` is not awaited, so `reportedUser` is a query object. The not-found check never fires, and `reportedUser.save()` throws because a query has no `save`. | `block` on a pending report: the handler answers 500, the report stays pending and the user is not blocked. | Await the lookup: 404 when the user is missing, otherwise resolve the report and block the user. | not executed | Reports.TakeActionAsWritten, Reports.BlockAsWrittenBlocksNobody | Reports.TakeAction, Reports.BlockBlocks |
| src/controllers/user.ctrl.js:277 | The guard `!userId && !oldPassword \|\| !newPassword` lets a request with a user id but no old password through. `comparePassword(undefined)` then throws. | A known user with new password "secret1" and no old password: the answer is 500, not the guard's 400. | Require each of the three fields, as the guard's message says. | not executed | Accounts.ResetPasswordAsWritten, Accounts.MissingOldPasswordAsWritten | Accounts.ResetPassword |
