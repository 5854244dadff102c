/** The administrator's moderation handlers: the report transition with its
    strike counter, the soft deletes of users, posts, reports, trades and
    community posts, the post total of the dashboard and the status labels
    of the user detail. */
module Admin {
  import opened Common
  import opened Schema

  /** The columns of `dam_reports` that `updateReportsDetail` reads or
      writes. */
  datatype Report = Report(writerUserId: int, processingResult: Option<int>, status: int)

  /** The columns of a post or trade row that the soft deletes leave alone. */
  type Cells = seq<string>

  // ---------------------------------------------------------------------
  // The report transition
  // ---------------------------------------------------------------------

  /** `Number(status) === 1 && prevProcessingResult === null`. */
  predicate ShouldIncrement(status: Option<int>, prev: Option<int>)
  {
    status == Some(1) && prev.None?
  }

  /** `UPDATE dam_reports SET processing_result = ?, status = CASE WHEN ? IS
      NULL THEN status ELSE 1 END`: the result is the supplied one, the
      status becomes 1 exactly when a result is supplied and is otherwise
      kept, and the writer does not change. */
  function UpdateReport(r: Report, status: Option<int>): (r': Report)
    ensures r'.processingResult == status
    ensures r'.status == 1 <==> status.Some? || r.status == 1
    ensures status.None? ==> r'.status == r.status
    ensures r'.writerUserId == r.writerUserId
  {
    Report(r.writerUserId, status, if status.None? then r.status else 1)
  }

  /** The strike rule: only the transition from "no result" to result 1
      increments; results 0 and 2, a missing result, and a 1 given again to
      a report that already has a result never do. */
  lemma ShouldIncrementExactly(status: Option<int>, prev: Option<int>)
    ensures status == Some(0) || status == Some(2) || status.None? || prev.Some? ==>
              !ShouldIncrement(status, prev)
  {
  }

  /** Once a result has been recorded, applying any outcome again does not
      increment, and giving the same outcome again leaves the report as it
      was. */
  lemma RepeatedOutcomeDoesNotIncrement(r: Report, status: Option<int>, again: Option<int>)
    requires status.Some?
    ensures !ShouldIncrement(again, UpdateReport(r, status).processingResult)
    ensures UpdateReport(UpdateReport(r, status), status) == UpdateReport(r, status)
  {
  }

  /** A report whose result is reset to NULL counts again when it is later
      given result 1. */
  lemma ResetThenOneIncrements(r: Report)
    ensures ShouldIncrement(Some(1), UpdateReport(r, None).processingResult)
  {
  }

  /** `UPDATE damteul_users SET reported_count = COALESCE(reported_count, 0)
      + 1 WHERE user_id = ?`: one more strike for that user, a NULL count
      counting as 0, and no other column or row touched. */
  function IncrementReported(users: Table<User>, userId: int): (r: Table<User>)
    requires userId in users
    ensures r.Keys == users.Keys
    ensures r[userId].data.reportedCount == Some(IfNull0(users[userId].data.reportedCount) + 1)
    ensures r[userId].data == users[userId].data.(reportedCount := r[userId].data.reportedCount)
    ensures r[userId].isDeleted == users[userId].isDeleted
    ensures forall k :: k in users && k != userId ==> r[k] == users[k]
  {
    var u := users[userId];
    users[userId := Row(u.data.(reportedCount := Some(IfNull0(u.data.reportedCount) + 1)), u.isDeleted)]
  }

  // ---------------------------------------------------------------------
  // Dashboard and labels
  // ---------------------------------------------------------------------

  /** The `posts` figure of the dashboard: the goods, nanum and community
      counts added, a missing count (also a missing KPI row) counting as 0. */
  function PostsTotal(goods: Option<int>, nanum: Option<int>, community: Option<int>): (r: int)
    ensures goods.None? && nanum.None? && community.None? ==> r == 0
    ensures goods.Some? && nanum.Some? && community.Some? ==> r == goods.value + nanum.value + community.value
  {
    IfNull0(goods) + IfNull0(nanum) + IfNull0(community)
  }

  /** `CASE status WHEN 0 THEN '활동중' WHEN 1 THEN '정지' WHEN 2 THEN '탈퇴'
      ELSE '기타' END`; a NULL status takes the ELSE branch. */
  function StatusLabel(status: Option<int>): string
  {
    if status == Some(0) then "활동중"
    else if status == Some(1) then "정지"
    else if status == Some(2) then "탈퇴"
    else "기타"
  }

  /** The three known statuses get three different labels, and every other
      value, NULL included, gets the fallback label. */
  lemma StatusLabelSpec(a: Option<int>, b: Option<int>)
    ensures StatusLabel(a) == "기타" <==> !(a == Some(0) || a == Some(1) || a == Some(2))
    ensures StatusLabel(a) == StatusLabel(b) && StatusLabel(a) != "기타" ==> a == b
  {
  }

  /** `CASE r.processing_result WHEN 0 THEN '무효' WHEN 1 THEN '경고' WHEN 2
      THEN '정지' ELSE '처리중' END`: a report without a result reads as
      still being processed. */
  function ResultLabel(result: Option<int>): string
  {
    if result == Some(0) then "무효"
    else if result == Some(1) then "경고"
    else if result == Some(2) then "정지"
    else "처리중"
  }

  /** After an outcome is recorded the report reads as processed exactly
      when the outcome is one of the three known ones; resetting it reads as
      still being processed. */
  lemma ResultLabelAfterUpdate(r: Report, status: Option<int>)
    ensures var l := ResultLabel(UpdateReport(r, status).processingResult);
            l == "처리중" <==> !(status == Some(0) || status == Some(1) || status == Some(2))
  {
  }

  /** The row `getUserDetail` answers: the key, nickname, level and strike
      count as stored, and the status as its label. */
  datatype UserDetail = UserDetail(userId: int, nickname: string, levelCode: int,
                                   reportedCount: Option<int>, status: string)

  // ---------------------------------------------------------------------
  // The handlers
  // ---------------------------------------------------------------------

  /** Which soft-deletable table `postDelete` writes to: `dam_goods_posts`
      when the `url` parameter is exactly "goods", otherwise
      `dam_nanum_posts`. */
  predicate IsGoodsUrl(url: string)
  {
    url == "goods"
  }

  class AdminDb {
    var users: Table<User>
    var reports: Table<Report>
    var goods: Table<Cells>
    var nanum: Table<Cells>
    var trades: Table<Cells>
    var community: Table<Cells>

    constructor (users: Table<User>, reports: Table<Report>, goods: Table<Cells>,
                 nanum: Table<Cells>, trades: Table<Cells>, community: Table<Cells>)
      ensures this.users == users && this.reports == reports && this.goods == goods
      ensures this.nanum == nanum && this.trades == trades && this.community == community
    {
      this.users := users;
      this.reports := reports;
      this.goods := goods;
      this.nanum := nanum;
      this.trades := trades;
      this.community := community;
    }

    /** GET /admin/users/:user_id: 400 without an id, 500 when the query
        fails, 404 for an unknown one (deleted users are shown too),
        otherwise the user's row with its status label. */
    method GetUserDetail(userId: Option<int>, fault: Fault) returns (code: int, user: Option<UserDetail>)
      ensures userId.None? ==> code == BAD_REQUEST
      ensures userId.Some? && fault != NoFault ==> code == SERVER_ERROR
      ensures code == NOT_FOUND <==> userId.Some? && fault == NoFault && userId.value !in users
      ensures code == OK <==> userId.Some? && fault == NoFault && userId.value in users
      ensures user.Some? <==> code == OK
      ensures code == OK ==>
                var u := users[userId.value].data;
                && user.value.userId == userId.value && user.value.nickname == u.nickname
                && user.value.levelCode == u.levelCode && user.value.reportedCount == u.reportedCount
                && user.value.status == StatusLabel(Some(u.status))
    {
      if userId.None? { return BAD_REQUEST, None; }
      if fault != NoFault { return SERVER_ERROR, None; }
      if userId.value !in users { return NOT_FOUND, None; }
      var u := users[userId.value].data;
      return OK, Some(UserDetail(userId.value, u.nickname, u.levelCode, u.reportedCount, StatusLabel(Some(u.status))));
    }

    /** PATCH /admin/reports/:id, a transaction of statements numbered
        0 (connection), 1 (BEGIN), 2 (SELECT … FOR UPDATE), 3 (UPDATE of the
        report), 4 (strike increment) and 5 (COMMIT).  Any failing
        statement, a missing report and a missing writer roll everything
        back. */
    method UpdateReportsDetail(id: Option<int>, status: Option<int>, fault: Fault)
      returns (code: int, increased: bool)
      modifies this`reports, this`users
      ensures id.None? ==> code == BAD_REQUEST
      ensures id.Some? && code != OK && code != NOT_FOUND ==> code == SERVER_ERROR
      ensures code != OK ==> reports == old(reports) && users == old(users) && !increased
      ensures code == NOT_FOUND <==>
                id.Some? && !FailsBefore(fault, 3) &&
                (id.value !in old(reports) ||
                 (!FailsAt(fault, 3) && !FailsAt(fault, 4) &&
                  ShouldIncrement(status, old(reports)[id.value].data.processingResult) &&
                  old(reports)[id.value].data.writerUserId !in old(users)))
      ensures code == OK <==>
                id.Some? && !FailsBefore(fault, 4) && !FailsAt(fault, 5) && id.value in old(reports) &&
                (ShouldIncrement(status, old(reports)[id.value].data.processingResult) ==>
                   !FailsAt(fault, 4) && old(reports)[id.value].data.writerUserId in old(users))
      ensures code == OK ==>
                var row := old(reports)[id.value];
                var inc := ShouldIncrement(status, row.data.processingResult);
                && increased == inc
                && reports == old(reports)[id.value := Row(UpdateReport(row.data, status), row.isDeleted)]
                && users == (if inc then IncrementReported(old(users), row.data.writerUserId) else old(users))
    {
      increased := false;
      if id.None? { return BAD_REQUEST, false; }
      if FailsBefore(fault, 3) { return SERVER_ERROR, false; }
      if id.value !in reports { return NOT_FOUND, false; }
      var row := reports[id.value];
      var reports1 := reports[id.value := Row(UpdateReport(row.data, status), row.isDeleted)];
      if FailsAt(fault, 3) { return SERVER_ERROR, false; }
      var inc := ShouldIncrement(status, row.data.processingResult);
      var users1 := users;
      if inc {
        if FailsAt(fault, 4) { return SERVER_ERROR, false; }
        if row.data.writerUserId !in users { return NOT_FOUND, false; }
        users1 := IncrementReported(users, row.data.writerUserId);
      }
      if FailsAt(fault, 5) { return SERVER_ERROR, false; }
      reports, users := reports1, users1;
      code, increased := OK, inc;
    }

    /** DELETE /admin/users/:id. */
    method UserDelete(id: Option<int>, fault: Fault) returns (code: int)
      modifies this`users
      ensures id.None? ==> code == BAD_REQUEST && users == old(users)
      ensures fault != NoFault && id.Some? ==> code == SERVER_ERROR && users == old(users)
      ensures id.Some? && fault == NoFault ==>
                (users, code) == GuardedSoftDelete(old(users), id.value, Always())
    {
      if id.None? { return BAD_REQUEST; }
      if fault != NoFault { return SERVER_ERROR; }
      var r := GuardedSoftDelete(users, id.value, Always());
      users, code := r.0, r.1;
    }

    /** DELETE /admin/posts/:url/:id: goods posts when `url` is "goods",
        nanum posts for any other value. */
    method PostDelete(url: string, id: Option<int>, fault: Fault) returns (code: int)
      modifies this`goods, this`nanum
      ensures id.None? || fault != NoFault ==> goods == old(goods) && nanum == old(nanum)
      ensures id.None? ==> code == BAD_REQUEST
      ensures id.Some? && fault != NoFault ==> code == SERVER_ERROR
      ensures id.Some? && fault == NoFault && IsGoodsUrl(url) ==>
                (goods, code) == GuardedSoftDelete(old(goods), id.value, Always()) && nanum == old(nanum)
      ensures id.Some? && fault == NoFault && !IsGoodsUrl(url) ==>
                (nanum, code) == GuardedSoftDelete(old(nanum), id.value, Always()) && goods == old(goods)
    {
      if id.None? { return BAD_REQUEST; }
      if fault != NoFault { return SERVER_ERROR; }
      if IsGoodsUrl(url) {
        var r := GuardedSoftDelete(goods, id.value, Always());
        goods, code := r.0, r.1;
      } else {
        var r := GuardedSoftDelete(nanum, id.value, Always());
        nanum, code := r.0, r.1;
      }
    }

    /** DELETE /admin/reports/:id. */
    method ReportDelete(id: Option<int>, fault: Fault) returns (code: int)
      modifies this`reports
      ensures id.None? ==> code == BAD_REQUEST && reports == old(reports)
      ensures fault != NoFault && id.Some? ==> code == SERVER_ERROR && reports == old(reports)
      ensures id.Some? && fault == NoFault ==>
                (reports, code) == GuardedSoftDelete(old(reports), id.value, Always())
    {
      if id.None? { return BAD_REQUEST; }
      if fault != NoFault { return SERVER_ERROR; }
      var r := GuardedSoftDelete(reports, id.value, Always());
      reports, code := r.0, r.1;
    }

    /** DELETE /admin/trades/:id. */
    method TradeDelete(id: Option<int>, fault: Fault) returns (code: int)
      modifies this`trades
      ensures id.None? ==> code == BAD_REQUEST && trades == old(trades)
      ensures fault != NoFault && id.Some? ==> code == SERVER_ERROR && trades == old(trades)
      ensures id.Some? && fault == NoFault ==>
                (trades, code) == GuardedSoftDelete(old(trades), id.value, Always())
    {
      if id.None? { return BAD_REQUEST; }
      if fault != NoFault { return SERVER_ERROR; }
      var r := GuardedSoftDelete(trades, id.value, Always());
      trades, code := r.0, r.1;
    }

    /** DELETE /admin/community/:id. */
    method CommunityDelete(id: Option<int>, fault: Fault) returns (code: int)
      modifies this`community
      ensures id.None? ==> code == BAD_REQUEST && community == old(community)
      ensures fault != NoFault && id.Some? ==> code == SERVER_ERROR && community == old(community)
      ensures id.Some? && fault == NoFault ==>
                (community, code) == GuardedSoftDelete(old(community), id.value, Always())
    {
      if id.None? { return BAD_REQUEST; }
      if fault != NoFault { return SERVER_ERROR; }
      var r := GuardedSoftDelete(community, id.value, Always());
      community, code := r.0, r.1;
    }
  }
}
