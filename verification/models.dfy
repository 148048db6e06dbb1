/** The three persisted records of the chat server (user, report, message),
    their enumerations with the schema defaults, and the one model method,
    OTP generation. */
module Models {
  import opened Common

  type UserId = string
  /** The id of a live socket connection: never empty, so a present id is
      always truthy. */
  type ConnId = c: string | c != "" witness "conn"
  /** A room key as stored in `assignedRoom`/`myRooms`: never the empty
      string, so a present key is always truthy. */
  type RoomKey = s: string | s != "" witness "lobby"

  /** A hexadecimal digit, in either case. */
  predicate IsHexDigit(c: char) {
    ('0' <= c <= '9') || ('a' <= c <= 'f') || ('A' <= c <= 'F')
  }

  /** A string Mongoose casts to an `ObjectId`: 24 hexadecimal digits.
      Writing any other string into an `ObjectId` path (a query filter, a
      `create`, a `save`) throws a cast error. */
  predicate IsObjectId(s: string) {
    |s| == 24 && forall i :: 0 <= i < |s| ==> IsHexDigit(s[i])
  }

  /** Every string of `ids` casts to an `ObjectId`. */
  predicate AllObjectIds(ids: seq<string>) {
    forall k :: 0 <= k < |ids| ==> IsObjectId(ids[k])
  }

  /** The `ObjectId` a cast yields, in its canonical string form: the hex
      digits read case-insensitively and written in lower case. Ids that
      come from the database or a token are already in this form. */
  function CastId(s: string): (r: string)
    ensures |r| == |s|
    ensures forall i :: 0 <= i < |s| ==> r[i] == LowerChar(s[i])
  {
    ToLower(s)
  }

  /** A string casts exactly when its cast form does, and the cast form is
      its own cast: a canonical id is stored as it is. */
  lemma {:induction false} CastKeepsObjectId(s: string)
    ensures IsObjectId(s) <==> IsObjectId(CastId(s))
    ensures CastId(CastId(s)) == CastId(s)
  {
    var r := CastId(s);
    forall i | 0 <= i < |s|
      ensures IsHexDigit(s[i]) <==> IsHexDigit(r[i])
      ensures LowerChar(r[i]) == r[i]
    {
      LowerCharIdempotent(s[i]);
    }
    assert CastId(r) == r;
  }

  /** The cast of every string of `ids`, in order. */
  function CastIds(ids: seq<string>): (r: seq<string>)
    ensures |r| == |ids| && forall k :: 0 <= k < |ids| ==> r[k] == CastId(ids[k])
  {
    if ids == [] then [] else [CastId(ids[0])] + CastIds(ids[1..])
  }

  // ---------------------------------------------------------------------
  // Enumerations

  datatype Role = UserRole | Admin | PartnerRole

  function RoleName(r: Role): string {
    match r
    case UserRole => "user"
    case Admin => "admin"
    case PartnerRole => "partner"
  }

  /** The schema's enum check on `role`: only the three names are accepted. */
  function ParseRole(s: string): (r: Option<Role>)
    ensures r.Some? ==> RoleName(r.value) == s
  {
    if s == "user" then Some(UserRole)
    else if s == "admin" then Some(Admin)
    else if s == "partner" then Some(PartnerRole)
    else None
  }

  lemma ParseRoleName(r: Role)
    ensures ParseRole(RoleName(r)) == Some(r)
  {
  }

  datatype ReportContext = ChatContext | VideoChatContext

  function ContextName(c: ReportContext): string {
    match c
    case ChatContext => "chat"
    case VideoChatContext => "videochat"
  }

  function ParseContext(s: string): (r: Option<ReportContext>)
    ensures r.Some? ==> ContextName(r.value) == s
  {
    if s == "chat" then Some(ChatContext)
    else if s == "videochat" then Some(VideoChatContext)
    else None
  }

  lemma ParseContextName(c: ReportContext)
    ensures ParseContext(ContextName(c)) == Some(c)
  {
  }

  datatype ReportStatus = Pending | Resolved | Ignored

  datatype MessageType = Normal | News | Emergency | Help | PartnerMessage

  function MessageTypeName(t: MessageType): string {
    match t
    case Normal => "normal"
    case News => "News"
    case Emergency => "Emergency"
    case Help => "Help"
    case PartnerMessage => "partner"
  }

  function ParseMessageType(s: string): (r: Option<MessageType>)
    ensures r.Some? ==> MessageTypeName(r.value) == s
  {
    if s == "normal" then Some(Normal)
    else if s == "News" then Some(News)
    else if s == "Emergency" then Some(Emergency)
    else if s == "Help" then Some(Help)
    else if s == "partner" then Some(PartnerMessage)
    else None
  }

  lemma ParseMessageTypeName(t: MessageType)
    ensures ParseMessageType(MessageTypeName(t)) == Some(t)
  {
  }

  const DefaultRole: Role := UserRole
  const DefaultContext: ReportContext := ChatContext
  const DefaultStatus: ReportStatus := Pending
  const DefaultMessageType: MessageType := Normal
  const DefaultProfilePic: string := "https://cdn0.iconfinder.com/data/icons/user-pictures/100/unknown_1-2-512.png"
  /** GeoJSON point `[longitude, latitude]`, defaulting to `[0, 0]`. */
  const DefaultCoordinates: seq<int> := [0, 0]

  // ---------------------------------------------------------------------
  // User

  datatype User = User(
    id: UserId,
    name: string,
    email: string,
    password: string,
    profilePic: string,
    role: Role,
    city: Option<string>,
    coordinates: seq<int>,
    otp: Option<string>,
    otpExpiresAt: Option<int>,
    assignedRoom: Option<RoomKey>,
    myRooms: seq<RoomKey>,
    fcmToken: Option<string>,
    isBlocked: bool,
    isOnline: bool,
    socketId: Option<ConnId>,
    createdAt: int)

  /** What the user schema's `required` validators accept. */
  predicate UserValid(u: User) {
    u.name != "" && u.email != "" && u.password != ""
  }

  /** A freshly constructed user document: the given fields, every other
      field at its schema default. */
  function NewUser(id: UserId, name: string, email: string, password: string, now: int): (u: User)
    ensures u.role == DefaultRole && !u.isBlocked && !u.isOnline
    ensures u.coordinates == DefaultCoordinates && u.profilePic == DefaultProfilePic
    ensures u.assignedRoom == None && u.myRooms == [] && u.socketId == None
    ensures u.otp == None && u.otpExpiresAt == None
    ensures name != "" && email != "" && password != "" ==> UserValid(u)
  {
    User(id, name, email, password, DefaultProfilePic, DefaultRole, None, DefaultCoordinates,
         None, None, None, [], None, false, false, None, now)
  }

  /** Lifetime of a one-time password: ten minutes, in milliseconds. */
  const OtpLifetime: int := 10 * 60 * 1000

  /** `generateOTP`: `draw` is the `Math.random()` sample in [0, 1). The code
      is `floor(1000 + draw * 9000)` written in decimal, and it expires ten
      minutes after `now`. Returns the updated user and the code. */
  function GenerateOtp(u: User, draw: real, now: int): (r: (User, string))
    requires 0.0 <= draw < 1.0
    ensures var code := (1000.0 + draw * 9000.0).Floor;
      1000 <= code <= 9999 && r.1 == NatToString(code)
    ensures |r.1| == 4 && forall i :: 0 <= i < 4 ==> '0' <= r.1[i] <= '9'
    ensures r.0.otp == Some(r.1) && r.0.otpExpiresAt == Some(now + 600000)
    ensures r.0 == u.(otp := r.0.otp, otpExpiresAt := r.0.otpExpiresAt)
  {
    var x := 1000.0 + draw * 9000.0;
    var code := x.Floor;
    assert 1000 <= code <= 9999;
    FourDigits(code);
    var s := NatToString(code);
    (u.(otp := Some(s), otpExpiresAt := Some(now + OtpLifetime)), s)
  }

  // ---------------------------------------------------------------------
  // Report

  datatype Report = Report(
    reportedBy: UserId,
    reportedUser: UserId,
    reason: string,
    reportedMessageId: Option<string>,
    note: Option<string>,
    context: ReportContext,
    status: ReportStatus)

  /** The report schema's `required` validator on `reason`. */
  predicate ReportValid(r: Report) {
    r.reason != ""
  }

  // ---------------------------------------------------------------------
  // Message

  datatype Reaction = Reaction(user: Option<UserId>, emoji: string)

  datatype Message = Message(
    sender: UserId,
    room: RoomKey,
    content: string,
    messageType: MessageType,
    reactions: seq<Reaction>,
    mentions: seq<UserId>,
    createdAt: int)

  /** The document the create-if-absent upsert of a room inserts: only
      `room` and `createdAt` are set, the array paths and `messageType`
      take their schema defaults, and there is no sender and no content
      (an update does not run the `required` validators). */
  function Marker(room: RoomKey, createdAt: int): (m: Message)
    ensures m.room == room && m.createdAt == createdAt && !MessageValid(m)
  {
    Message("", room, "", DefaultMessageType, [], [], createdAt)
  }

  /** The message schema's `required` validators: `content` and every
      reaction's `emoji`. */
  predicate MessageValid(m: Message) {
    m.content != "" && forall i :: 0 <= i < |m.reactions| ==> m.reactions[i].emoji != ""
  }
}
