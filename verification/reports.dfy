/** The report REST controller: filing a report against another user, at
    most once per reporter and reported user, and an administrator's
    decision on a pending report. */
module Reports {
  import opened Common
  import opened Models
  import opened Store
  import Messaging

  const FieldsRequired := "All fields are required"
  const AlreadyReported := "you have already reported this user"
  const ReportCreated := "Report created successfully"
  const InternalError := "Internal server error"
  const AdminsOnly := "Only admins can take action on reports"
  const IdAndActionRequired := "Report ID and action are required"
  const ReportNotFound := "Report not found"
  const OnlyPending := "Report action can only be taken on pending reports"
  const ReportedUserNotFound := "Reported user not found"
  const ActionTaken := "Report action taken successfully"

  /** The action that blocks the reported user; any other moves the report
      to `ignored`. */
  const BlockAction := "block"

  // ---------------------------------------------------------------------
  // create

  /** The request body of `create`. */
  datatype ReportForm = ReportForm(
    reportedUser: Option<string>,
    reason: Option<string>,
    reportedMessageId: Option<string>,
    context: Option<string>,
    note: Option<string>)

  /** `findOne({ reportedBy, reportedUser })`, whatever the status. */
  function FindReport(reports: seq<Report>, reporter: UserId, against: UserId): (r: Option<nat>)
    ensures r.Some? ==> r.value < |reports| && reports[r.value].reportedBy == reporter && reports[r.value].reportedUser == against
    ensures r.None? ==> forall k :: 0 <= k < |reports| ==> !(reports[k].reportedBy == reporter && reports[k].reportedUser == against)
  {
    if reports == [] then None
    else if reports[0].reportedBy == reporter && reports[0].reportedUser == against then Some(0)
    else match FindReport(reports[1..], reporter, against)
      case None => None
      case Some(k) => Some(k + 1)
  }

  /** Every field the guard of `create` insists on is truthy. */
  predicate Complete(userId: Option<UserId>, f: ReportForm) {
    Given(userId) && Given(f.reportedUser) && Given(f.reportedMessageId) && Given(f.reason) && Given(f.context)
  }

  /** The report `create` files: the given fields, the two ids in their
      cast form, and the schema's default status. */
  predicate FiledAs(rep: Report, reporter: UserId, f: ReportForm) {
    && rep.reportedBy == reporter
    && f.reportedUser.Some? && rep.reportedUser == CastId(f.reportedUser.value)
    && f.reason == Some(rep.reason)
    && f.reportedMessageId.Some? && rep.reportedMessageId == Some(CastId(f.reportedMessageId.value))
    && f.context == Some(ContextName(rep.context))
    && rep.note == f.note
    && rep.status == Pending
  }

  /** `create`: the 400 guard, the duplicate check on the (reporter,
      reported) pair, whose query casts `reportedUser` (one that is not an
      ObjectId is a 500, and hex case does not matter), and the save, whose casts reject a
      `reportedMessageId` that is not one and whose enum validator rejects
      an unknown `context` (a 500 each). Only the report collection ever
      changes. */
  function Create(st: Store, userId: Option<UserId>, f: ReportForm): (r: (Store, Response))
    ensures r.0.users == st.users && r.0.rooms == st.rooms && r.0.messages == st.messages
    ensures r.1.code in {200, 201, 400, 500}
    ensures r.1.code == 400 <==> !Complete(userId, f)
    ensures r.1.code == 200 <==>
      Complete(userId, f) && IsObjectId(f.reportedUser.value)
      && FindReport(st.reports, userId.value, CastId(f.reportedUser.value)).Some?
    ensures r.1.code == 201 <==>
      Complete(userId, f) && IsObjectId(f.reportedUser.value)
      && FindReport(st.reports, userId.value, CastId(f.reportedUser.value)).None?
      && IsObjectId(f.reportedMessageId.value) && ParseContext(f.context.value).Some?
    ensures r.1.code == 500 <==>
      Complete(userId, f)
      && (!IsObjectId(f.reportedUser.value)
          || (FindReport(st.reports, userId.value, CastId(f.reportedUser.value)).None?
              && !(IsObjectId(f.reportedMessageId.value) && ParseContext(f.context.value).Some?)))
    ensures r.1.code != 201 ==> r.0 == st
    ensures r.1.code == 201 ==>
      && |r.0.reports| == |st.reports| + 1
      && r.0.reports[..|st.reports|] == st.reports
      && FiledAs(r.0.reports[|st.reports|], userId.value, f)
      && ReportValid(r.0.reports[|st.reports|])
  {
    if !Complete(userId, f) then (st, Response(400, FieldsRequired))
    else if !IsObjectId(f.reportedUser.value) then (st, Response(500, InternalError))
    else if FindReport(st.reports, userId.value, CastId(f.reportedUser.value)).Some? then
      (st, Response(200, AlreadyReported))
    else if !IsObjectId(f.reportedMessageId.value) then (st, Response(500, InternalError))
    else match ParseContext(f.context.value)
      case None => (st, Response(500, InternalError))
      case Some(c) =>
        var rep := Report(userId.value, CastId(f.reportedUser.value), f.reason.value,
                          Some(CastId(f.reportedMessageId.value)), f.note, c, Pending);
        assert (st.reports + [rep])[..|st.reports|] == st.reports;
        (st.(reports := st.reports + [rep]), Response(201, ReportCreated))
  }

  /** The ids of the form are read only through their casts: respelling
      them in another hex case changes nothing. */
  lemma CreateIgnoresHexCase(st: Store, userId: Option<UserId>, f: ReportForm, t: string, m: string)
    requires f.reportedUser.Some? && f.reportedMessageId.Some?
    requires CastId(t) == CastId(f.reportedUser.value) && CastId(m) == CastId(f.reportedMessageId.value)
    ensures Create(st, userId, f.(reportedUser := Some(t), reportedMessageId := Some(m))) == Create(st, userId, f)
  {
    CastKeepsObjectId(t);
    CastKeepsObjectId(f.reportedUser.value);
    CastKeepsObjectId(m);
    CastKeepsObjectId(f.reportedMessageId.value);
  }

  /** No two reports share a (reporter, reported) pair. */
  predicate OnePerPair(reports: seq<Report>) {
    forall i, j :: 0 <= i < j < |reports| ==>
      !(reports[i].reportedBy == reports[j].reportedBy && reports[i].reportedUser == reports[j].reportedUser)
  }

  /** `create` keeps the collection at one report per pair. */
  lemma CreateKeepsOnePerPair(st: Store, userId: Option<UserId>, f: ReportForm)
    requires OnePerPair(st.reports)
    ensures OnePerPair(Create(st, userId, f).0.reports)
  {
    var r := Create(st, userId, f);
    if r.1.code == 201 {
      var rs := r.0.reports;
      var n := |st.reports|;
      forall i, j | 0 <= i < j < |rs|
        ensures !(rs[i].reportedBy == rs[j].reportedBy && rs[i].reportedUser == rs[j].reportedUser)
      {
        assert rs[i] == st.reports[i] by {
          assert rs[..n][i] == rs[i];
        }
        if j < n {
          assert rs[j] == st.reports[j] by {
            assert rs[..n][j] == rs[j];
          }
        }
      }
    }
  }

  /** Reporting the same user again, under any spelling that casts to the
      same id, answers "already reported" and stores nothing. */
  lemma SecondReportRefused(st: Store, userId: Option<UserId>, f: ReportForm, f': ReportForm)
    requires Create(st, userId, f).1.code == 201
    requires Complete(userId, f') && IsObjectId(f'.reportedUser.value)
    requires CastId(f'.reportedUser.value) == CastId(f.reportedUser.value)
    ensures var st1 := Create(st, userId, f).0;
      Create(st1, userId, f') == (st1, Response(200, AlreadyReported))
  {
    var st1 := Create(st, userId, f).0;
    var n := |st.reports|;
    assert st1.reports[n].reportedBy == userId.value && st1.reports[n].reportedUser == CastId(f'.reportedUser.value);
    assert FindReport(st1.reports, userId.value, CastId(f'.reportedUser.value)).Some?;
  }

  // ---------------------------------------------------------------------
  // takeAction

  /** A report id names a report by its position in the collection. */
  type ReportId = nat

  /** The status a decision moves a pending report to. */
  function Decision(action: string): (s: ReportStatus)
    ensures s != Pending
    ensures s == Resolved <==> action == BlockAction
  {
    if action == BlockAction then Resolved else Ignored
  }

  /** The guards `takeAction` runs before it acts: the caller's role, the
      two body fields, the report's existence and its status. */
  function Precheck(st: Store, role: Role, reportId: Option<ReportId>, action: Option<string>): (r: Option<Response>)
    ensures r.Some? ==> r.value.code in {400, 403, 404}
    ensures role != Admin ==> r == Some(Response(403, AdminsOnly))
    ensures role == Admin && (reportId.None? || !Given(action)) ==>
      r == Some(Response(400, IdAndActionRequired))
    ensures role == Admin && reportId.Some? && Given(action) && reportId.value >= |st.reports| ==>
      r == Some(Response(404, ReportNotFound))
    ensures (role == Admin && reportId.Some? && Given(action) && reportId.value < |st.reports|
             && st.reports[reportId.value].status != Pending) ==>
      r == Some(Response(400, OnlyPending))
    ensures r.None? <==>
      role == Admin && reportId.Some? && Given(action) && reportId.value < |st.reports|
      && st.reports[reportId.value].status == Pending
  {
    if role != Admin then Some(Response(403, AdminsOnly))
    else if reportId.None? || !Given(action) then Some(Response(400, IdAndActionRequired))
    else if reportId.value >= |st.reports| then Some(Response(404, ReportNotFound))
    else if st.reports[reportId.value].status != Pending then Some(Response(400, OnlyPending))
    else None
  }

  /** `takeAction` as the handler is written. The user lookup is not
      awaited, so it yields a query object: the not-found check never fires,
      and for `block` the handler calls `save` on that query, which has no
      such method. The TypeError is answered with a 500 before the report is
      saved, so `block` changes nothing. Any other action ignores the
      report. */
  function TakeActionAsWritten(st: Store, role: Role, reportId: Option<ReportId>, action: Option<string>): (r: (Store, Response))
    ensures r.0.users == st.users && r.0.rooms == st.rooms && r.0.messages == st.messages
    ensures Precheck(st, role, reportId, action).Some? ==> r == (st, Precheck(st, role, reportId, action).value)
    ensures Precheck(st, role, reportId, action).None? ==>
      if action.value == BlockAction then r == (st, Response(500, InternalError))
      else r.1.code == 200 && r.0.reports == st.reports[reportId.value := st.reports[reportId.value].(status := Ignored)]
  {
    match Precheck(st, role, reportId, action)
    case Some(refusal) => (st, refusal)
    case None =>
      var k := reportId.value;
      if action.value == BlockAction then (st, Response(500, InternalError))
      else (st.(reports := st.reports[k := st.reports[k].(status := Ignored)]), Response(200, ActionTaken))
  }

  /** `takeAction` with the user lookup awaited: a missing reported user is
      a 404, `block` resolves the report and blocks its user, and any other
      action ignores the report. */
  function TakeAction(st: Store, role: Role, reportId: Option<ReportId>, action: Option<string>): (r: (Store, Response))
    ensures r.0.rooms == st.rooms && r.0.messages == st.messages
    ensures |r.0.users| == |st.users| && |r.0.reports| == |st.reports|
    ensures Precheck(st, role, reportId, action).Some? ==> r == (st, Precheck(st, role, reportId, action).value)
    ensures r.1.code == 200 <==>
      Precheck(st, role, reportId, action).None?
      && FindUser(st.users, st.reports[reportId.value].reportedUser).Some?
    ensures r.1.code != 200 ==> r.0 == st
    ensures r.1.code == 200 ==> (
      var k := reportId.value;
      var i := FindUser(st.users, st.reports[k].reportedUser).value;
      && r.0.reports == st.reports[k := st.reports[k].(status := Decision(action.value))]
      && (action.value == BlockAction ==> r.0.users == st.users[i := st.users[i].(isBlocked := true)])
      && (action.value != BlockAction ==> r.0.users == st.users))
  {
    match Precheck(st, role, reportId, action)
    case Some(refusal) => (st, refusal)
    case None =>
      var k := reportId.value;
      match FindUser(st.users, st.reports[k].reportedUser)
      case None => (st, Response(404, ReportedUserNotFound))
      case Some(i) =>
        var users := if action.value == BlockAction then st.users[i := st.users[i].(isBlocked := true)] else st.users;
        (st.(users := users, reports := st.reports[k := st.reports[k].(status := Decision(action.value))]),
         Response(200, ActionTaken))
  }

  /** The status of a report only ever leaves `pending`: it stays as it was,
      or moves from `pending` to `resolved` or `ignored`. */
  predicate StatusStep(a: ReportStatus, b: ReportStatus) {
    a == b || (a == Pending && b != Pending)
  }

  predicate StatusesStep(before: seq<Report>, after: seq<Report>) {
    |before| <= |after| && forall k :: 0 <= k < |before| ==> StatusStep(before[k].status, after[k].status)
  }

  /** `takeAction` changes at most the status of the report it names, and
      only out of `pending`. */
  lemma TakeActionStep(st: Store, role: Role, reportId: Option<ReportId>, action: Option<string>)
    ensures var r := TakeAction(st, role, reportId, action).0;
      && StatusesStep(st.reports, r.reports)
      && forall k :: 0 <= k < |st.reports| && (reportId != Some(k) || r == st) ==> r.reports[k] == st.reports[k]
  {
  }

  /** `create` only appends a pending report. */
  lemma CreateStep(st: Store, userId: Option<UserId>, f: ReportForm)
    ensures StatusesStep(st.reports, Create(st, userId, f).0.reports)
  {
    var r := Create(st, userId, f).0;
    if r != st {
      forall k | 0 <= k < |st.reports|
        ensures StatusStep(st.reports[k].status, r.reports[k].status)
      {
        assert r.reports[..|st.reports|][k] == r.reports[k];
      }
    }
  }

  /** `takeAction` as written changes at most the status of the report it
      names, and only out of `pending`. */
  lemma TakeActionAsWrittenStep(st: Store, role: Role, reportId: Option<ReportId>, action: Option<string>)
    ensures var r := TakeActionAsWritten(st, role, reportId, action).0;
      && StatusesStep(st.reports, r.reports)
      && forall k :: 0 <= k < |st.reports| && (reportId != Some(k) || r == st) ==> r.reports[k] == st.reports[k]
  {
  }

  /** The socket's `reportAbuse` only appends a report. */
  lemma ReportAbuseStep(st: Store, uid: UserId, conn: ConnId, a: Messaging.AbuseReport)
    ensures StatusesStep(st.reports, Messaging.ReportAbuse(st, uid, conn, a).0.reports)
  {
    var r := Messaging.ReportAbuse(st, uid, conn, a).0;
    if r != st {
      forall k | 0 <= k < |st.reports|
        ensures StatusStep(st.reports[k].status, r.reports[k].status)
      {
        assert r.reports[..|st.reports|][k] == r.reports[k];
      }
    }
  }

  /** One request that writes to the report collection: the two REST
      handlers (`takeAction` both as written and with its lookup awaited)
      and the socket's `reportAbuse`. */
  datatype Request =
    | CreateReq(userId: Option<UserId>, form: ReportForm)
    | ActionReq(role: Role, reportId: Option<ReportId>, action: Option<string>)
    | ActionAsWrittenReq(role: Role, reportId: Option<ReportId>, action: Option<string>)
    | AbuseReq(uid: UserId, conn: ConnId, abuse: Messaging.AbuseReport)

  function Handle(st: Store, q: Request): Store {
    match q
    case CreateReq(userId, form) => Create(st, userId, form).0
    case ActionReq(role, reportId, action) => TakeAction(st, role, reportId, action).0
    case ActionAsWrittenReq(role, reportId, action) => TakeActionAsWritten(st, role, reportId, action).0
    case AbuseReq(uid, conn, abuse) => Messaging.ReportAbuse(st, uid, conn, abuse).0
  }

  function Run(st: Store, qs: seq<Request>): Store
    decreases |qs|
  {
    if qs == [] then st else Run(Handle(st, qs[0]), qs[1..])
  }

  /** Whatever requests follow, a report that has been decided is never
      pending again: `resolved` and `ignored` are terminal. */
  lemma {:induction false} NeverBackToPending(st: Store, qs: seq<Request>)
    ensures StatusesStep(st.reports, Run(st, qs).reports)
    decreases |qs|
  {
    if qs != [] {
      var st1 := Handle(st, qs[0]);
      match qs[0] {
        case CreateReq(userId, form) => CreateStep(st, userId, form);
        case ActionReq(role, reportId, action) => TakeActionStep(st, role, reportId, action);
        case ActionAsWrittenReq(role, reportId, action) => TakeActionAsWrittenStep(st, role, reportId, action);
        case AbuseReq(uid, conn, abuse) => ReportAbuseStep(st, uid, conn, abuse);
      }
      NeverBackToPending(st1, qs[1..]);
      var end := Run(st1, qs[1..]);
      forall k | 0 <= k < |st.reports|
        ensures StatusStep(st.reports[k].status, end.reports[k].status)
      {
        assert StatusStep(st.reports[k].status, st1.reports[k].status);
        assert StatusStep(st1.reports[k].status, end.reports[k].status);
      }
    }
  }

  /** A decision is final: acting on a decided report answers 400 and
      changes nothing. */
  lemma DecisionIsFinal(st: Store, k: ReportId, action: string, action': string)
    requires TakeAction(st, Admin, Some(k), Some(action)).1.code == 200 && action' != ""
    ensures var st1 := TakeAction(st, Admin, Some(k), Some(action)).0;
      TakeAction(st1, Admin, Some(k), Some(action')) == (st1, Response(400, OnlyPending))
  {
    var st1 := TakeAction(st, Admin, Some(k), Some(action)).0;
    assert st1.reports[k].status == Decision(action);
  }

  /** As written, `block` on a pending report fails with a 500 and neither
      resolves the report nor blocks its user, whether or not the user
      exists. */
  lemma BlockAsWrittenBlocksNobody(st: Store, k: ReportId)
    requires k < |st.reports| && st.reports[k].status == Pending
    ensures TakeActionAsWritten(st, Admin, Some(k), Some(BlockAction)) == (st, Response(500, InternalError))
  {
  }

  /** With the lookup awaited, `block` on a pending report of an existing
      user resolves the report and blocks that user. */
  lemma BlockBlocks(st: Store, k: ReportId)
    requires k < |st.reports| && st.reports[k].status == Pending
    requires FindUser(st.users, st.reports[k].reportedUser).Some?
    ensures var (st1, resp) := TakeAction(st, Admin, Some(k), Some(BlockAction));
      && resp.code == 200
      && st1.reports[k].status == Resolved
      && st1.users[FindUser(st.users, st.reports[k].reportedUser).value].isBlocked
  {
  }
}
