/** The user REST controller: registration and login, profile and status
    updates, password reset, one-time passwords, the administrator's user
    listing and the "do I have a room" query. Password hashing and
    comparison are parameters: `hash` is what the pre-save hook stores and
    `matches(plain, stored)` is the comparison. */
module Accounts {
  import opened Common
  import opened Models
  import opened Store
  import Rooms

  const InternalError := "Internal server error"
  const RegisterFieldsRequired := "Name, email, and password are required"
  const EmailTaken := "User already exists with this email"
  const Registered := "User registered successfully"
  const LoginFieldsRequired := "Email and password are required"
  const InvalidCredentials := "Invalid email or password"
  const LoggedIn := "Login successful"
  const UserIdRequired := "User ID is required"
  const UserNotFound := "User not found"
  const ProfileUpdated := "User profile updated successfully"
  const StatusFieldsRequired := "User ID and target user ID are required"
  const AdminsOnlyBlock := "Only admins can block users"
  const TargetNotFound := "Target user not found"
  const StatusUpdated := "User status updated successfully"
  const ResetFieldsRequired := "User ID, old password, and new password are required"
  const WrongOldPassword := "Enter correct old password"
  const PasswordTooShort := "New password must be at least 6 characters long"
  const PasswordReset := "Password reset successfully"
  const EmailRequired := "Email is required"
  const OtpSent := "OTP sent successfully"
  const OtpFieldsRequired := "Email and OTP are required"
  const InvalidOtp := "Invalid OTP"
  const OtpExpired := "OTP has expired"
  const OtpVerified := "OTP verified successfully"
  const AdminsOnlyUsers := "Only admins can access this route"
  const NoUsers := "No users found"
  const UsersListed := "Users retrieved successfully"

  /** The shortest new password `resetPassword` accepts. */
  const MinPasswordLength := 6

  /** The status value that blocks a user in `updateStatus`. */
  const BlockStatus := "block"

  /** The public fields of a user the handlers answer with. */
  datatype Profile = Profile(id: UserId, name: string, email: string, profilePic: string, role: Role)

  function ProfileOf(u: User): Profile {
    Profile(u.id, u.name, u.email, u.profilePic, u.role)
  }

  /** Another user than the one at `i` already has `email`: the unique index
      on `email` makes a save with it fail. */
  predicate TakenByOther(users: seq<User>, i: nat, email: string) {
    exists j :: 0 <= j < |users| && j != i && users[j].email == email
  }

  /** `findOne({ email })` after the user at `i` was replaced by one with the
      same email finds the same position. */
  lemma EmailLookupAfterUpdate(users: seq<User>, email: string, i: nat, u: User)
    requires FindByEmail(users, email) == Some(i) && u.email == email
    ensures FindByEmail(users[i := u], email) == Some(i)
  {
    var users' := users[i := u];
    assert users'[i].email == email;
    assert forall k :: 0 <= k < i ==> users'[k] == users[k];
  }

  // ---------------------------------------------------------------------
  // register and login

  /** `register`: the three fields are required and the email must be new.
      `newId` is the id the database assigns; the stored password is
      `hash(password)`. */
  function Register(st: Store, name: Option<string>, email: Option<string>, password: Option<string>,
                    newId: UserId, now: int, hash: string -> string): (r: (Store, Response))
    ensures r.0.rooms == st.rooms && r.0.messages == st.messages && r.0.reports == st.reports
    ensures r.1.code == 400 <==>
      !Given(name) || !Given(email) || !Given(password) || FindByEmail(st.users, email.value).Some?
    ensures r.1.code != 400 ==> r.1.code == 201
    ensures r.1.code == 400 ==> r.0 == st
    ensures r.1.code == 201 ==>
      && |r.0.users| == |st.users| + 1
      && r.0.users[..|st.users|] == st.users
      && var u := r.0.users[|st.users|];
      && ProfileOf(u) == Profile(newId, name.value, email.value, DefaultProfilePic, DefaultRole)
      && u.password == hash(password.value)
      && !u.isBlocked && u.assignedRoom.None? && u.myRooms == [] && u.otp.None?
  {
    if !Given(name) || !Given(email) || !Given(password) then (st, Response(400, RegisterFieldsRequired))
    else if FindByEmail(st.users, email.value).Some? then (st, Response(400, EmailTaken))
    else
      var u := NewUser(newId, name.value, email.value, hash(password.value), now);
      assert (st.users + [u])[..|st.users|] == st.users;
      (st.(users := st.users + [u]), Response(201, Registered))
  }

  /** Registration keeps emails unique, and ids unique when the assigned id
      is fresh. */
  lemma RegisterKeepsKeysUnique(st: Store, name: Option<string>, email: Option<string>, password: Option<string>,
                                newId: UserId, now: int, hash: string -> string)
    requires UniqueEmails(st.users) && UniqueIds(st.users)
    requires FindUser(st.users, newId).None?
    ensures var users := Register(st, name, email, password, newId, now, hash).0.users;
      UniqueEmails(users) && UniqueIds(users)
  {
    var users := Register(st, name, email, password, newId, now, hash).0.users;
    var n := |st.users|;
    if |users| != n {
      forall j | 0 <= j < n
        ensures users[j] == st.users[j]
      {
        assert users[..n][j] == users[j];
      }
    }
  }

  /** `login`: the same 401 answers an unknown email and a wrong password,
      so the answer does not reveal which emails are registered. */
  function Login(st: Store, email: Option<string>, password: Option<string>,
                 matches: (string, string) -> bool): (r: (Response, Option<Profile>))
    ensures r.0.code == 400 <==> !Given(email) || !Given(password)
    ensures r.0.code == 200 <==>
      Given(email) && Given(password) && FindByEmail(st.users, email.value).Some?
      && matches(password.value, st.users[FindByEmail(st.users, email.value).value].password)
    ensures r.0.code == 200 ==> r.1 == Some(ProfileOf(st.users[FindByEmail(st.users, email.value).value]))
    ensures r.0.code != 200 ==> r.1.None?
    ensures r.0.code != 200 && r.0.code != 400 ==> r.0 == Response(401, InvalidCredentials)
  {
    if !Given(email) || !Given(password) then (Response(400, LoginFieldsRequired), None)
    else match FindByEmail(st.users, email.value)
      case None => (Response(401, InvalidCredentials), None)
      case Some(i) =>
        if !matches(password.value, st.users[i].password) then (Response(401, InvalidCredentials), None)
        else (Response(200, LoggedIn), Some(ProfileOf(st.users[i])))
  }

  /** Whoever registers can log in with the same email and password, given
      that the comparison accepts a password against its own hash. */
  lemma RegisterThenLogin(st: Store, name: Option<string>, email: Option<string>, password: Option<string>,
                          newId: UserId, now: int, hash: string -> string, matches: (string, string) -> bool)
    requires Register(st, name, email, password, newId, now, hash).1.code == 201
    requires matches(password.value, hash(password.value))
    ensures var st1 := Register(st, name, email, password, newId, now, hash).0;
      Login(st1, email, password, matches).1 == Some(Profile(newId, name.value, email.value, DefaultProfilePic, DefaultRole))
  {
    var st1 := Register(st, name, email, password, newId, now, hash).0;
    var n := |st.users|;
    assert st1.users[n].email == email.value;
    assert forall j :: 0 <= j < n ==> st1.users[j] == st.users[j] by {
      forall j | 0 <= j < n ensures st1.users[j] == st.users[j] {
        assert st1.users[..n][j] == st1.users[j];
      }
    }
    assert FindByEmail(st1.users, email.value) == Some(n);
  }

  // ---------------------------------------------------------------------
  // updateProfile

  /** `value || current`: a falsy value keeps the current one. */
  function OrElse(value: Option<string>, current: string): (r: string)
    ensures Given(value) ==> r == value.value
    ensures !Given(value) ==> r == current
  {
    if Given(value) then value.value else current
  }

  /** The requested changes of `updateProfile`; `imageUrl` is the uploaded
      picture's address, when a picture was uploaded. */
  datatype ProfileEdit = ProfileEdit(name: Option<string>, email: Option<string>, role: Option<string>,
                                     imageUrl: Option<string>)

  /** The user after the field-wise merge, or `None` when the new role is
      not one of the enum's names. */
  function Merge(u: User, e: ProfileEdit): (r: Option<User>)
    ensures r.None? <==> Given(e.role) && ParseRole(e.role.value).None?
    ensures r.Some? ==>
      && r.value.name == OrElse(e.name, u.name)
      && r.value.email == OrElse(e.email, u.email)
      && r.value.profilePic == OrElse(e.imageUrl, u.profilePic)
      && (Given(e.role) ==> RoleName(r.value.role) == e.role.value)
      && (!Given(e.role) ==> r.value.role == u.role)
      && r.value == u.(name := r.value.name, email := r.value.email, role := r.value.role,
                       profilePic := r.value.profilePic)
  {
    var role := if Given(e.role) then ParseRole(e.role.value) else Some(u.role);
    match role
    case None => None
    case Some(role) =>
      Some(u.(profilePic := OrElse(e.imageUrl, u.profilePic), name := OrElse(e.name, u.name),
              email := OrElse(e.email, u.email), role := role))
  }

  /** `updateProfile`: the caller's own record, merged field by field. The
      save fails with a 500 on an unknown role or on an email another user
      holds. */
  function UpdateProfile(st: Store, userId: Option<UserId>, e: ProfileEdit): (r: (Store, Response))
    ensures r.0.rooms == st.rooms && r.0.messages == st.messages && r.0.reports == st.reports
    ensures r.1.code == 400 <==> !Given(userId)
    ensures r.1.code == 404 <==> Given(userId) && FindUser(st.users, userId.value).None?
    ensures r.1.code != 200 ==> r.0 == st
    ensures r.1.code == 200 <==> (
      Given(userId) && FindUser(st.users, userId.value).Some? &&
      var i := FindUser(st.users, userId.value).value;
      Merge(st.users[i], e).Some? && !TakenByOther(st.users, i, Merge(st.users[i], e).value.email))
    ensures r.1.code == 200 ==> (
      var i := FindUser(st.users, userId.value).value;
      r.0.users == st.users[i := Merge(st.users[i], e).value])
  {
    if !Given(userId) then (st, Response(400, UserIdRequired))
    else match FindUser(st.users, userId.value)
      case None => (st, Response(404, UserNotFound))
      case Some(i) =>
        match Merge(st.users[i], e)
        case None => (st, Response(500, InternalError))
        case Some(u) =>
          if TakenByOther(st.users, i, u.email) then (st, Response(500, InternalError))
          else (st.(users := st.users[i := u]), Response(200, ProfileUpdated))
  }

  /** The unique index holds across `updateProfile`. */
  lemma UpdateProfileKeepsEmailsUnique(st: Store, userId: Option<UserId>, e: ProfileEdit)
    requires UniqueEmails(st.users)
    ensures UniqueEmails(UpdateProfile(st, userId, e).0.users)
  {
    var r := UpdateProfile(st, userId, e);
    if r.1.code == 200 {
      var i := FindUser(st.users, userId.value).value;
      var u := Merge(st.users[i], e).value;
      forall a, b | 0 <= a < b < |r.0.users|
        ensures r.0.users[a].email != r.0.users[b].email
      {
        if a == i {
          assert !(b != i && st.users[b].email == u.email);
        } else if b == i {
          assert !(a != i && st.users[a].email == u.email);
        }
      }
    }
  }

  /** An edit that gives nothing truthy is answered 200 and changes
      nothing. */
  lemma EmptyEditChangesNothing(st: Store, uid: UserId)
    requires uid != "" && FindUser(st.users, uid).Some? && UniqueEmails(st.users)
    ensures UpdateProfile(st, Some(uid), ProfileEdit(None, None, None, None)) == (st, Response(200, ProfileUpdated))
  {
    var i := FindUser(st.users, uid).value;
    var e := ProfileEdit(None, None, None, None);
    assert Merge(st.users[i], e) == Some(st.users[i]);
    assert !TakenByOther(st.users, i, st.users[i].email);
    assert st.users[i := st.users[i]] == st.users;
  }

  /** Sending the same edit twice is the same as sending it once. */
  lemma UpdateProfileIdempotent(st: Store, uid: UserId, e: ProfileEdit)
    requires UniqueIds(st.users)
    requires UpdateProfile(st, Some(uid), e).1.code == 200
    ensures var st1 := UpdateProfile(st, Some(uid), e).0;
      UpdateProfile(st1, Some(uid), e) == (st1, Response(200, ProfileUpdated))
  {
    var st1 := UpdateProfile(st, Some(uid), e).0;
    var i := FindUser(st.users, uid).value;
    var u := Merge(st.users[i], e).value;
    Rooms.FindUserAfterUpdate(st.users, uid, i, u);
    assert Merge(u, e) == Some(u);
    assert !TakenByOther(st1.users, i, u.email) by {
      forall j | 0 <= j < |st1.users| && j != i
        ensures st1.users[j].email != u.email
      {
        assert st1.users[j] == st.users[j];
        assert !(j != i && st.users[j].email == u.email);
      }
    }
    assert st1.users[i := u] == st1.users;
  }

  // ---------------------------------------------------------------------
  // updateStatus

  /** `updateStatus`: the 400 check on the three fields comes before the
      403 check on the caller's role; a target id that is not an ObjectId
      fails the lookup's cast (a 500), and one that is finds its user in
      whatever hex case it is written. The target is blocked exactly when the
      status is `block`; any other status unblocks. */
  function UpdateStatus(st: Store, caller: Option<UserId>, role: Role, target: Option<UserId>,
                        status: Option<string>): (r: (Store, Response))
    ensures r.0.rooms == st.rooms && r.0.messages == st.messages && r.0.reports == st.reports
    ensures r.1.code == 400 <==> !Given(caller) || !Given(target) || !Given(status)
    ensures r.1.code == 403 <==> Given(caller) && Given(target) && Given(status) && role != Admin
    ensures r.1.code == 500 <==>
      Given(caller) && Given(target) && Given(status) && role == Admin && !IsObjectId(target.value)
    ensures r.1.code == 404 <==>
      Given(caller) && Given(target) && Given(status) && role == Admin
      && IsObjectId(target.value) && FindUser(st.users, CastId(target.value)).None?
    ensures r.1.code == 200 <==>
      Given(caller) && Given(target) && Given(status) && role == Admin
      && IsObjectId(target.value) && FindUser(st.users, CastId(target.value)).Some?
    ensures r.1.code != 200 ==> r.0 == st
    ensures r.1.code == 200 ==> (
      var i := FindUser(st.users, CastId(target.value)).value;
      r.0.users == st.users[i := st.users[i].(isBlocked := status.value == BlockStatus)])
  {
    if !Given(caller) || !Given(target) || !Given(status) then (st, Response(400, StatusFieldsRequired))
    else if role != Admin then (st, Response(403, AdminsOnlyBlock))
    else if !IsObjectId(target.value) then (st, Response(500, InternalError))
    else match FindUser(st.users, CastId(target.value))
      case None => (st, Response(404, TargetNotFound))
      case Some(i) =>
        (st.(users := st.users[i := st.users[i].(isBlocked := status.value == BlockStatus)]),
         Response(200, StatusUpdated))
  }

  /** The target id is read only through its cast: respelling it in
      another hex case changes nothing. */
  lemma UpdateStatusIgnoresHexCase(st: Store, caller: Option<UserId>, role: Role, target: UserId, target': UserId,
                                   status: Option<string>)
    requires CastId(target) == CastId(target')
    ensures UpdateStatus(st, caller, role, Some(target'), status) == UpdateStatus(st, caller, role, Some(target), status)
  {
    CastKeepsObjectId(target);
    CastKeepsObjectId(target');
  }

  /** A user an administrator blocks, by their id written in any hex case,
      is refused by `joinRoom` (once the rate limit lets the attempt
      through), whatever room or position is asked for. */
  lemma BlockedCannotJoin(st: Store, admin: UserId, target: UserId, conn: ConnId,
                          req: Rooms.JoinRequest, nearest: Option<RoomKey>, now: int)
    requires admin != "" && IsObjectId(target) && FindUser(st.users, CastId(target)).Some?
    ensures var st1 := UpdateStatus(st, Some(admin), Admin, Some(target), Some(BlockStatus)).0;
      Rooms.Dispatch(st1, CastId(target), conn, req, nearest, now) == (st1, Reply(conn, Rooms.YouAreBlocked))
  {
    var uid := CastId(target);
    var st1 := UpdateStatus(st, Some(admin), Admin, Some(target), Some(BlockStatus)).0;
    var i := FindUser(st.users, uid).value;
    Rooms.FindUserAfterUpdate(st.users, uid, i, st1.users[i]);
    Rooms.GuardsRefuse(st1, uid, conn, req, nearest, now);
  }

  // ---------------------------------------------------------------------
  // resetPassword

  /** The steps of `resetPassword` after its 400 guard: the user lookup, the
      old-password comparison, then the length rule. An absent old password
      makes the comparison throw, which is answered with a 500. */
  function ResetChecked(st: Store, userId: Option<UserId>, oldPassword: Option<string>, newPassword: string,
                        matches: (string, string) -> bool, hash: string -> string): (r: (Store, Response))
    ensures r.0.rooms == st.rooms && r.0.messages == st.messages && r.0.reports == st.reports
    ensures r.1.code != 200 ==> r.0 == st
    ensures r.1.code == 200 <==>
      Given(userId) && FindUser(st.users, userId.value).Some? && oldPassword.Some?
      && matches(oldPassword.value, st.users[FindUser(st.users, userId.value).value].password)
      && |newPassword| >= MinPasswordLength
    ensures r.1.code == 200 ==> (
      var i := FindUser(st.users, userId.value).value;
      r.0.users == st.users[i := st.users[i].(password := hash(newPassword))])
  {
    var found := if Given(userId) then FindUser(st.users, userId.value) else None;
    match found
    case None => (st, Response(404, UserNotFound))
    case Some(i) =>
      if oldPassword.None? then (st, Response(500, InternalError))
      else if !matches(oldPassword.value, st.users[i].password) then (st, Response(401, WrongOldPassword))
      else if |newPassword| < MinPasswordLength then (st, Response(400, PasswordTooShort))
      else (st.(users := st.users[i := st.users[i].(password := hash(newPassword))]), Response(200, PasswordReset))
  }

  /** `resetPassword` as written: the guard `!userId && !oldPassword ||
      !newPassword` lets a request with a user id but no old password
      through. */
  function ResetPasswordAsWritten(st: Store, userId: Option<UserId>, oldPassword: Option<string>,
                                  newPassword: Option<string>, matches: (string, string) -> bool,
                                  hash: string -> string): (r: (Store, Response))
    ensures r.1.code == 400 && r.1.message == ResetFieldsRequired <==>
      (!Given(userId) && !Given(oldPassword)) || !Given(newPassword)
    ensures r.1.code != 200 ==> r.0 == st
  {
    if (!Given(userId) && !Given(oldPassword)) || !Given(newPassword) then (st, Response(400, ResetFieldsRequired))
    else ResetChecked(st, userId, oldPassword, newPassword.value, matches, hash)
  }

  /** `resetPassword` with the guard its message describes: each of the
      three fields is required. */
  function ResetPassword(st: Store, userId: Option<UserId>, oldPassword: Option<string>,
                         newPassword: Option<string>, matches: (string, string) -> bool,
                         hash: string -> string): (r: (Store, Response))
    ensures r.1.code == 400 && r.1.message == ResetFieldsRequired <==>
      !Given(userId) || !Given(oldPassword) || !Given(newPassword)
    ensures r.1.code != 500
    ensures r.1.code != 200 ==> r.0 == st
    ensures r.1.code == 200 ==> Given(oldPassword) && |newPassword.value| >= MinPasswordLength
  {
    if !Given(userId) || !Given(oldPassword) || !Given(newPassword) then (st, Response(400, ResetFieldsRequired))
    else ResetChecked(st, userId, oldPassword, newPassword.value, matches, hash)
  }

  /** The discrepancy: a known user sending no old password gets a 500 from
      the comparison as written, and the 400 of the guard once corrected. */
  lemma MissingOldPasswordAsWritten(st: Store, uid: UserId, newPassword: string,
                                    matches: (string, string) -> bool, hash: string -> string)
    requires uid != "" && newPassword != "" && FindUser(st.users, uid).Some?
    ensures ResetPasswordAsWritten(st, Some(uid), None, Some(newPassword), matches, hash) == (st, Response(500, InternalError))
    ensures ResetPassword(st, Some(uid), None, Some(newPassword), matches, hash) == (st, Response(400, ResetFieldsRequired))
  {
  }

  /** The old password is checked before the length rule: a wrong old
      password is a 401 even when the new one is too short. */
  lemma OldPasswordCheckedFirst(st: Store, uid: UserId, oldPassword: string, newPassword: string,
                                matches: (string, string) -> bool, hash: string -> string)
    requires uid != "" && oldPassword != "" && newPassword != "" && FindUser(st.users, uid).Some?
    requires !matches(oldPassword, st.users[FindUser(st.users, uid).value].password)
    ensures ResetPassword(st, Some(uid), Some(oldPassword), Some(newPassword), matches, hash) == (st, Response(401, WrongOldPassword))
  {
  }

  /** After a reset, the user logs in with the new password, given that the
      comparison accepts a password against its own hash. */
  lemma ResetThenLogin(st: Store, uid: UserId, oldPassword: string, newPassword: string,
                       matches: (string, string) -> bool, hash: string -> string)
    requires UniqueEmails(st.users)
    requires ResetPassword(st, Some(uid), Some(oldPassword), Some(newPassword), matches, hash).1.code == 200
    requires matches(newPassword, hash(newPassword))
    ensures var st1 := ResetPassword(st, Some(uid), Some(oldPassword), Some(newPassword), matches, hash).0;
            var i := FindUser(st.users, uid).value;
      st1.users[i].email != "" ==>
        Login(st1, Some(st1.users[i].email), Some(newPassword), matches).0.code == 200
  {
    var st1 := ResetPassword(st, Some(uid), Some(oldPassword), Some(newPassword), matches, hash).0;
    var i := FindUser(st.users, uid).value;
    var email := st.users[i].email;
    assert FindByEmail(st.users, email) == Some(i) by {
      assert st.users[i].email == email;
      assert forall j :: 0 <= j < i ==> st.users[j].email != email;
    }
    EmailLookupAfterUpdate(st.users, email, i, st1.users[i]);
  }

  // ---------------------------------------------------------------------
  // sendOTP and verifyOTP

  /** `sendOTP`: a fresh code for the user with `email`. `draw` is the
      `Math.random()` sample. The code goes out by a channel outside this
      model. */
  function SendOtp(st: Store, email: Option<string>, draw: real, now: int): (r: (Store, Response))
    requires 0.0 <= draw < 1.0
    ensures r.0.rooms == st.rooms && r.0.messages == st.messages && r.0.reports == st.reports
    ensures r.1.code == 400 <==> !Given(email)
    ensures r.1.code == 404 <==> Given(email) && FindByEmail(st.users, email.value).None?
    ensures r.1.code == 200 <==> Given(email) && FindByEmail(st.users, email.value).Some?
    ensures r.1.code != 200 ==> r.0 == st
    ensures r.1.code == 200 ==> (
      var i := FindByEmail(st.users, email.value).value;
      && |r.0.users| == |st.users|
      && (forall j :: 0 <= j < |st.users| && j != i ==> r.0.users[j] == st.users[j])
      && r.0.users[i] == GenerateOtp(st.users[i], draw, now).0)
  {
    if !Given(email) then (st, Response(400, EmailRequired))
    else match FindByEmail(st.users, email.value)
      case None => (st, Response(404, UserNotFound))
      case Some(i) =>
        var (u, _) := GenerateOtp(st.users[i], draw, now);
        (st.(users := st.users[i := u]), Response(200, OtpSent))
  }

  /** `verifyOTP`: a mismatch is reported before expiry, an absent expiry
      never counts as expired, and success clears both OTP fields. */
  function VerifyOtp(st: Store, email: Option<string>, otp: Option<string>, now: int): (r: (Store, Response))
    ensures r.0.rooms == st.rooms && r.0.messages == st.messages && r.0.reports == st.reports
    ensures r.1.code == 400 <==> !Given(email) || !Given(otp)
    ensures r.1.code == 404 <==> Given(email) && Given(otp) && FindByEmail(st.users, email.value).None?
    ensures r.1 == Response(401, InvalidOtp) <==>
      Given(email) && Given(otp) && FindByEmail(st.users, email.value).Some?
      && st.users[FindByEmail(st.users, email.value).value].otp != otp
    ensures r.1.code == 200 <==> (
      Given(email) && Given(otp) && FindByEmail(st.users, email.value).Some? &&
      var u := st.users[FindByEmail(st.users, email.value).value];
      u.otp == otp && !(u.otpExpiresAt.Some? && u.otpExpiresAt.value < now))
    ensures r.1.code != 200 ==> r.0 == st
    ensures r.1.code == 200 ==> (
      var i := FindByEmail(st.users, email.value).value;
      r.0.users == st.users[i := st.users[i].(otp := None, otpExpiresAt := None)])
  {
    if !Given(email) || !Given(otp) then (st, Response(400, OtpFieldsRequired))
    else match FindByEmail(st.users, email.value)
      case None => (st, Response(404, UserNotFound))
      case Some(i) =>
        var u := st.users[i];
        if u.otp != otp then (st, Response(401, InvalidOtp))
        else if u.otpExpiresAt.Some? && u.otpExpiresAt.value < now then (st, Response(401, OtpExpired))
        else (st.(users := st.users[i := u.(otp := None, otpExpiresAt := None)]), Response(200, OtpVerified))
  }

  /** A code verifies once: the same code sent again is an invalid OTP. */
  lemma OtpIsSingleUse(st: Store, email: Option<string>, otp: Option<string>, now: int, later: int)
    requires VerifyOtp(st, email, otp, now).1.code == 200
    ensures var st1 := VerifyOtp(st, email, otp, now).0;
      VerifyOtp(st1, email, otp, later) == (st1, Response(401, InvalidOtp))
  {
    var i := FindByEmail(st.users, email.value).value;
    var st1 := VerifyOtp(st, email, otp, now).0;
    EmailLookupAfterUpdate(st.users, email.value, i, st1.users[i]);
  }

  /** The code `sendOTP` issues at `t` verifies at any `now` up to ten
      minutes later, and is expired after that. */
  lemma SendThenVerify(st: Store, email: string, draw: real, t: int, now: int)
    requires 0.0 <= draw < 1.0 && email != ""
    requires FindByEmail(st.users, email).Some?
    ensures var st1 := SendOtp(st, Some(email), draw, t).0;
            var code := GenerateOtp(st.users[FindByEmail(st.users, email).value], draw, t).1;
      && (now <= t + OtpLifetime ==> VerifyOtp(st1, Some(email), Some(code), now).1.code == 200)
      && (now > t + OtpLifetime ==> VerifyOtp(st1, Some(email), Some(code), now).1 == Response(401, OtpExpired))
  {
    var i := FindByEmail(st.users, email).value;
    var st1 := SendOtp(st, Some(email), draw, t).0;
    assert st1.users == st.users[i := st1.users[i]];
    EmailLookupAfterUpdate(st.users, email, i, st1.users[i]);
  }

  /** A wrong code is reported as invalid even when the stored one has
      expired, so the answer does not reveal the expiry of someone else's
      code. */
  lemma MismatchBeforeExpiry(st: Store, email: string, otp: string, now: int)
    requires email != "" && otp != "" && FindByEmail(st.users, email).Some?
    requires var u := st.users[FindByEmail(st.users, email).value];
      u.otp != Some(otp) && u.otpExpiresAt.Some? && u.otpExpiresAt.value < now
    ensures VerifyOtp(st, Some(email), Some(otp), now) == (st, Response(401, InvalidOtp))
  {
  }

  // ---------------------------------------------------------------------
  // getAllUsers

  /** A user as the listing shows it: every field except `password`, `otp`
      and `otpExpiresAt`. */
  datatype Listed = Listed(
    id: UserId,
    name: string,
    email: string,
    profilePic: string,
    role: Role,
    city: Option<string>,
    coordinates: seq<int>,
    assignedRoom: Option<RoomKey>,
    myRooms: seq<RoomKey>,
    fcmToken: Option<string>,
    isBlocked: bool,
    isOnline: bool,
    socketId: Option<ConnId>,
    createdAt: int)

  /** The projection `-password -otp -otpExpiresAt`. */
  function Conceal(u: User): Listed {
    Listed(u.id, u.name, u.email, u.profilePic, u.role, u.city, u.coordinates, u.assignedRoom,
           u.myRooms, u.fcmToken, u.isBlocked, u.isOnline, u.socketId, u.createdAt)
  }

  /** A listed user completed with the three hidden fields. */
  function Restore(l: Listed, password: string, otp: Option<string>, otpExpiresAt: Option<int>): User {
    User(l.id, l.name, l.email, password, l.profilePic, l.role, l.city, l.coordinates, otp, otpExpiresAt,
         l.assignedRoom, l.myRooms, l.fcmToken, l.isBlocked, l.isOnline, l.socketId, l.createdAt)
  }

  /** The projection drops exactly the three hidden fields: restoring them
      gives the user back. */
  lemma ConcealDropsOnlySecrets(u: User)
    ensures Restore(Conceal(u), u.password, u.otp, u.otpExpiresAt) == u
  {
  }

  function ConcealAll(users: seq<User>): (r: seq<Listed>)
    ensures |r| == |users|
    ensures forall k :: 0 <= k < |users| ==> r[k] == Conceal(users[k])
  {
    if users == [] then [] else [Conceal(users[0])] + ConcealAll(users[1..])
  }

  /** `getAllUsers`: administrators only; an empty collection is a 404. */
  function GetAllUsers(users: seq<User>, role: Role): (r: (Response, seq<Listed>))
    ensures r.0.code == 403 <==> role != Admin
    ensures r.0.code == 404 <==> role == Admin && users == []
    ensures r.0.code == 200 <==> role == Admin && users != []
    ensures r.0.code == 200 ==> r.1 == ConcealAll(users)
    ensures r.0.code != 200 ==> r.1 == []
  {
    if role != Admin then (Response(403, AdminsOnlyUsers), [])
    else if users == [] then (Response(404, NoUsers), [])
    else (Response(200, UsersListed), ConcealAll(users))
  }

  /** Two collections that differ only in passwords and one-time passwords
      are listed identically: the listing reveals none of them. */
  lemma ListingHidesSecrets(users: seq<User>, users': seq<User>, role: Role)
    requires |users| == |users'|
    requires forall k :: 0 <= k < |users| ==>
      users'[k] == users[k].(password := users'[k].password, otp := users'[k].otp, otpExpiresAt := users'[k].otpExpiresAt)
    ensures GetAllUsers(users, role) == GetAllUsers(users', role)
  {
    assert forall k :: 0 <= k < |users| ==> Conceal(users[k]) == Conceal(users'[k]);
    assert ConcealAll(users) == ConcealAll(users');
  }

  // ---------------------------------------------------------------------
  // haveRoom

  /** `haveRoom`: whether the caller currently has an assigned room. */
  function HaveRoom(users: seq<User>, userId: Option<UserId>): (r: (Response, Option<bool>))
    ensures r.0.code == 400 <==> !Given(userId)
    ensures r.0.code == 404 <==> Given(userId) && FindUser(users, userId.value).None?
    ensures r.1.Some? <==> r.0.code == 200
    ensures r.1.Some? ==> (r.1.value <==> users[FindUser(users, userId.value).value].assignedRoom.Some?)
  {
    if !Given(userId) then (Response(400, UserIdRequired), None)
    else match FindUser(users, userId.value)
      case None => (Response(404, UserNotFound), None)
      case Some(i) => (Response(200, ""), Some(users[i].assignedRoom.Some?))
  }

  /** After `leaveRoom` takes effect the user has no room, and after
      `joinMyRooms` takes effect the user has one. */
  lemma HaveRoomFollowsLeaveAndReturn(st: Store, uid: UserId, conn: ConnId, hasCallback: bool, roomId: Option<string>)
    requires uid != ""
    ensures var st1 := Rooms.LeaveRoom(st, uid, conn, hasCallback).0;
      st1 != st ==> HaveRoom(st1.users, Some(uid)).1 == Some(false)
    ensures Rooms.MayReturn(st.users, uid, roomId) ==>
      HaveRoom(Rooms.JoinMyRooms(st, uid, conn, roomId).0.users, Some(uid)).1 == Some(true)
  {
    var st1 := Rooms.LeaveRoom(st, uid, conn, hasCallback).0;
    if st1 != st {
      var i := FindUser(st.users, uid).value;
      Rooms.FindUserAfterUpdate(st.users, uid, i, st1.users[i]);
      assert st1.users == st.users[i := st1.users[i]];
    }
    if Rooms.MayReturn(st.users, uid, roomId) {
      var i := FindUser(st.users, uid).value;
      var st2 := Rooms.JoinMyRooms(st, uid, conn, roomId).0;
      Rooms.FindUserAfterUpdate(st.users, uid, i, st2.users[i]);
      assert st2.users == st.users[i := st2.users[i]];
    }
  }
}
