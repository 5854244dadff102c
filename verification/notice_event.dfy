/** The administrator's notices and events, kept together in
    `dam_event_notice` (`cate` 1 for a notice, 0 for an event): the date
    padding of new events, the three-way event status recomputed from
    `NOW()`, the validations of create and update, and the category-scoped
    soft deletes. */
module NoticeEvent {
  import opened Common
  import opened Schema

  const EVENT: int := 0
  const NOTICE: int := 1

  /** A row of `dam_event_notice`.  Dates are DATETIME values written as
      `YYYY-MM-DD HH:MM:SS` strings (or as stored from a request). */
  datatype Post = Post(
    cate: int,
    title: string,
    content: string,
    image: string,
    startDate: Option<string>,
    endDate: Option<string>,
    status: int,
    createdAt: string)

  /** `toStartDateTime(d)`: NULL for a falsy date, otherwise the date at
      midnight. */
  function ToStartDateTime(d: Option<string>): (r: Option<string>)
    ensures r.None? <==> Falsy(d)
    ensures r.Some? ==> |r.value| == |d.value| + 9 && r.value[..|d.value|] == d.value &&
                        r.value[|d.value|..] == " 00:00:00"
  {
    if Falsy(d) then None else Some(d.value + " 00:00:00")
  }

  /** `toEndDateTime(d)`: NULL for a falsy date, otherwise the last second
      of that day. */
  function ToEndDateTime(d: Option<string>): (r: Option<string>)
    ensures r.None? <==> Falsy(d)
    ensures r.Some? ==> |r.value| == |d.value| + 9 && r.value[..|d.value|] == d.value &&
                        r.value[|d.value|..] == " 23:59:59"
  {
    if Falsy(d) then None else Some(d.value + " 23:59:59")
  }

  /** How MySQL reads a string compared with a DATETIME: a bare
      `YYYY-MM-DD` date is that day at midnight. */
  function AsDateTime(s: string): string
  {
    if |s| == 10 then s + " 00:00:00" else s
  }

  /** `CASE WHEN NOW() < start THEN 0 WHEN NOW() > end THEN 2 ELSE 1 END`,
      with `now` and the dates in the canonical DATETIME form, whose
      character order is the time order.  A comparison with NULL is not
      true, so a missing date never decides the status. */
  function EventStatus(now: string, start: Option<string>, end: Option<string>): (r: int)
    ensures 0 <= r <= 2
  {
    if start.Some? && LexLess(now, AsDateTime(start.value)) then 0
    else if end.Some? && LexLess(AsDateTime(end.value), now) then 2
    else 1
  }

  /** The classification: scheduled before the start, ended after the end,
      running in between (both ends included). */
  lemma EventStatusSpec(now: string, start: string, end: string)
    ensures var st := EventStatus(now, Some(start), Some(end));
            && (st == 0 <==> LexLess(now, AsDateTime(start)))
            && (st == 2 <==> !LexLess(now, AsDateTime(start)) && LexLess(AsDateTime(end), now))
            && (st == 1 <==> LexLessEq(AsDateTime(start), now) && LexLessEq(now, AsDateTime(end)))
  {
    LexLessTotal(now, AsDateTime(start));
    LexLessTotal(now, AsDateTime(end));
    if LexLess(AsDateTime(start), now) { LexLessAsymmetric(AsDateTime(start), now); }
    if LexLess(now, AsDateTime(end)) { LexLessAsymmetric(now, AsDateTime(end)); }
    if now == AsDateTime(start) { LexLessIrreflexive(now); }
    if now == AsDateTime(end) { LexLessIrreflexive(now); }
  }

  /** A row without dates (every notice) is classified as running. */
  lemma NoDatesRunning(now: string)
    ensures EventStatus(now, None, None) == 1
  {
  }

  /** The status never goes back as time passes: scheduled, then running,
      then ended. */
  lemma EventStatusMonotone(now1: string, now2: string, start: Option<string>, end: Option<string>)
    requires LexLessEq(now1, now2)
    ensures EventStatus(now1, start, end) <= EventStatus(now2, start, end)
  {
    if start.Some? && LexLess(now2, AsDateTime(start.value)) && now1 != now2 {
      LexLessTransitive(now1, now2, AsDateTime(start.value));
    }
    if end.Some? && LexLess(AsDateTime(end.value), now1) && now1 != now2 {
      LexLessTransitive(AsDateTime(end.value), now1, now2);
    }
  }

  /** An event created with `YYYY-MM-DD` dates is scheduled before midnight
      of its first day, running from then until the last second of its last
      day, and ended afterwards. */
  lemma CreatedEventStatus(now: string, startDate: string, endDate: string)
    requires |startDate| == 10 && |endDate| == 10
    ensures var s := startDate + " 00:00:00";
            var e := endDate + " 23:59:59";
            var st := EventStatus(now, ToStartDateTime(Some(startDate)), ToEndDateTime(Some(endDate)));
            && (st == 0 <==> LexLess(now, s))
            && (st == 1 <==> LexLessEq(s, now) && LexLessEq(now, e))
            && (st == 2 <==> !LexLess(now, s) && LexLess(e, now))
  {
    EventStatusSpec(now, startDate + " 00:00:00", endDate + " 23:59:59");
  }

  /** `syncEventStatus`: every row of the table, notices and deleted rows
      included, gets the status its dates give at `now`; nothing else
      changes. */
  function SyncAll(posts: Table<Post>, now: string): (r: Table<Post>)
    ensures r.Keys == posts.Keys
    ensures forall k :: k in posts ==>
              r[k].isDeleted == posts[k].isDeleted &&
              r[k].data == posts[k].data.(status := EventStatus(now, posts[k].data.startDate, posts[k].data.endDate))
  {
    map k | k in posts :: Row(posts[k].data.(status := EventStatus(now, posts[k].data.startDate, posts[k].data.endDate)), posts[k].isDeleted)
  }

  /** Syncing twice at the same instant is syncing once, and after a sync
      every notice (no dates) reads as running. */
  lemma SyncAllIdempotent(posts: Table<Post>, now: string)
    ensures SyncAll(SyncAll(posts, now), now) == SyncAll(posts, now)
    ensures forall k :: k in posts && posts[k].data.startDate.None? && posts[k].data.endDate.None? ==>
              SyncAll(posts, now)[k].data.status == 1
  {
  }

  // ---------------------------------------------------------------------
  // The end date of an updated event
  // ---------------------------------------------------------------------

  /** `updateEvent` as written: the request's dates are stored and compared
      as they came, so a `YYYY-MM-DD` end date means midnight at the start of
      that day. */
  function UpdatedEventDatesAsWritten(startDate: string, endDate: string): (Option<string>, Option<string>)
  {
    (Some(startDate), Some(endDate))
  }

  /** The dates `updateEvent` evidently means to store: padded as
      `createEvent` pads them. */
  function UpdatedEventDates(startDate: string, endDate: string): (r: (Option<string>, Option<string>))
    ensures r.0 == ToStartDateTime(Some(startDate)) && r.1 == ToEndDateTime(Some(endDate))
  {
    (ToStartDateTime(Some(startDate)), ToEndDateTime(Some(endDate)))
  }

  /** As written, an event updated with a `YYYY-MM-DD` end date reads as
      ended at every moment of its last day after midnight, where the same
      event created with the same dates still runs. */
  lemma UpdatedEventEndsADayEarly(startDate: string, day: string, time: string)
    requires |startDate| == 10 && |day| == 10 && |time| == 8
    requires LexLess("00:00:00", time) && LexLessEq(time, "23:59:59")
    requires LexLessEq(startDate + " 00:00:00", day + " " + time)
    ensures var (s, e) := UpdatedEventDatesAsWritten(startDate, day);
            EventStatus(day + " " + time, s, e) == 2
    ensures var (s, e) := UpdatedEventDates(startDate, day);
            EventStatus(day + " " + time, s, e) == 1
  {
    var now := day + " " + time;
    assert AsDateTime(day) == day + " 00:00:00";
    assert AsDateTime(startDate) == startDate + " 00:00:00";
    assert day + " 00:00:00" == (day + " ") + "00:00:00";
    assert now == (day + " ") + time;
    LexLessCommonPrefix(day + " ", "00:00:00", time);
    EndOfDayCoversDay(startDate, day, time);
    if startDate + " 00:00:00" == now {
      LexLessIrreflexive(now);
    } else {
      LexLessAsymmetric(startDate + " 00:00:00", now);
    }
  }

  /** With padded dates an event runs through the whole of its last day. */
  lemma EndOfDayCoversDay(startDate: string, day: string, time: string)
    requires |startDate| == 10 && |day| == 10 && |time| == 8
    requires LexLessEq(time, "23:59:59")
    requires LexLessEq(startDate + " 00:00:00", day + " " + time)
    ensures var (s, e) := UpdatedEventDates(startDate, day);
            EventStatus(day + " " + time, s, e) == 1
  {
    var now := day + " " + time;
    var end := day + " 23:59:59";
    assert AsDateTime(end) == end;
    assert AsDateTime(startDate + " 00:00:00") == startDate + " 00:00:00";
    assert end == (day + " ") + "23:59:59";
    assert now == (day + " ") + time;
    LexLessCommonPrefix(day + " ", "23:59:59", time);
    if time != "23:59:59" {
      LexLessAsymmetric(time, "23:59:59");
    } else {
      LexLessIrreflexive("23:59:59");
    }
    if startDate + " 00:00:00" == now {
      LexLessIrreflexive(now);
    } else {
      LexLessAsymmetric(startDate + " 00:00:00", now);
    }
  }

  // ---------------------------------------------------------------------
  // What the list queries show
  // ---------------------------------------------------------------------

  /** `CASE status WHEN 0 THEN '예정' WHEN 1 THEN '진행중' WHEN 2 THEN '종료' END`:
      NULL for any other status. */
  function StatusName(status: int): (r: Option<string>)
    ensures r.Some? <==> 0 <= status <= 2
  {
    if status == 0 then Some("예정")
    else if status == 1 then Some("진행중")
    else if status == 2 then Some("종료")
    else None
  }

  /** Distinct statuses get distinct names. */
  lemma StatusNameInjective(a: int, b: int)
    requires StatusName(a).Some? && StatusName(a) == StatusName(b)
    ensures a == b
  {
  }

  /** `DATE_FORMAT(d, '%Y-%m-%d')` of a DATETIME held as
      `YYYY-MM-DD HH:MM:SS`: its date part, NULL for NULL. */
  function DayOf(d: Option<string>): (r: Option<string>)
    ensures r.None? <==> d.None?
    ensures r.Some? && |d.value| >= 10 ==> r.value == d.value[..10]
  {
    if d.None? then None
    else if |d.value| >= 10 then Some(d.value[..10])
    else Some(d.value)
  }

  /** The live rows of one category (`WHERE cate = ? AND is_deleted = 0`)
      whose keys lie below the AUTO_INCREMENT counter `n`, newest first
      (`ORDER BY event_id DESC`). */
  function Listed(posts: Table<Post>, cate: int, n: int): (r: seq<int>)
    ensures forall k :: k in r <==> k in posts && posts[k].data.cate == cate && posts[k].isDeleted == 0 && 0 <= k < n
    ensures forall i, j :: 0 <= i < j < |r| ==> r[i] > r[j]
  {
    var live := set k | k in posts && posts[k].data.cate == cate && posts[k].isDeleted == 0;
    KeysDescBelow(live, n)
  }

  /** One line of the administrator's event list. */
  datatype EventItem = EventItem(
    id: int,
    title: string,
    startDay: Option<string>,
    endDay: Option<string>,
    status: Option<string>)

  /** One line of the administrator's notice list. */
  datatype NoticeItem = NoticeItem(id: int, title: string, postDate: string)

  function EventItemOf(id: int, p: Post): EventItem
  {
    EventItem(id, p.title, DayOf(p.startDate), DayOf(p.endDate), StatusName(p.status))
  }

  function NoticeItemOf(id: int, p: Post): NoticeItem
  {
    NoticeItem(id, p.title, DayOf(Some(p.createdAt)).value)
  }

  /** After a sync every event of the list carries the name of the status its
      dates give at that instant, never NULL. */
  lemma SyncedStatusNamed(posts: Table<Post>, now: string, k: int)
    requires k in posts
    ensures var p := SyncAll(posts, now)[k].data;
            && EventItemOf(k, p).status.Some?
            && EventItemOf(k, p).status == StatusName(EventStatus(now, posts[k].data.startDate, posts[k].data.endDate))
  {
  }

  // ---------------------------------------------------------------------
  // The handlers
  // ---------------------------------------------------------------------

  /** `dam_event_notice` with its AUTO_INCREMENT counter.  Request ids are
      `Number(req.params.id)`, where 0 stands for every falsy result
      (0 and NaN); `now` is the value of `NOW()`; `fault` names the statement
      at which the store reports an error (counted from 0). */
  class NoticeEventDb {
    var posts: Table<Post>
    var nextId: int

    ghost predicate Valid()
      reads this
    {
      nextId >= 1 && forall k :: k in posts ==> 1 <= k < nextId
    }

    constructor (posts: Table<Post>, nextId: int)
      requires nextId >= 1 && forall k :: k in posts ==> 1 <= k < nextId
      ensures Valid()
      ensures this.posts == posts && this.nextId == nextId
    {
      this.posts := posts;
      this.nextId := nextId;
    }

    /** `syncEventStatus`: one UPDATE of every row; on an error nothing
        changes. */
    method SyncEventStatus(now: string, fails: bool) returns (ok: bool)
      requires Valid()
      modifies this`posts
      ensures Valid()
      ensures ok <==> !fails
      ensures posts == if ok then SyncAll(old(posts), now) else old(posts)
    {
      if fails {
        return false;
      }
      posts := SyncAll(posts, now);
      return true;
    }

    /** `GET /api/admin/events`: sync the statuses, then list the live events
        newest first. */
    method GetAdminEvents(now: string, fault: Fault) returns (code: int, events: seq<EventItem>)
      requires Valid()
      modifies this`posts
      ensures Valid()
      ensures FailsAt(fault, 0) ==> code == SERVER_ERROR && posts == old(posts)
      ensures !FailsAt(fault, 0) ==> posts == SyncAll(old(posts), now)
      ensures code == OK <==> fault.NoFault? || fault.step > 1
      ensures code != OK ==> code == SERVER_ERROR && events == []
      ensures code == OK ==>
                var ids := Listed(posts, EVENT, nextId);
                && |events| == |ids|
                && forall i :: 0 <= i < |ids| ==>
                     events[i] == EventItemOf(ids[i], posts[ids[i]].data) &&
                     events[i].status == StatusName(EventStatus(now, old(posts)[ids[i]].data.startDate, old(posts)[ids[i]].data.endDate)) &&
                     events[i].status.Some?
    {
      var synced := SyncEventStatus(now, FailsAt(fault, 0));
      if !synced {
        return SERVER_ERROR, [];
      }
      if FailsAt(fault, 1) {
        return SERVER_ERROR, [];
      }
      var t := posts;
      var ids := Listed(t, EVENT, nextId);
      events := seq(|ids|, i requires 0 <= i < |ids| => EventItemOf(ids[i], t[ids[i]].data));
      code := OK;
    }

    /** `GET /api/admin/notices`: the live notices newest first, with the day
        each was posted; no status sync. */
    method GetAdminNotices(fault: Fault) returns (code: int, notices: seq<NoticeItem>)
      requires Valid()
      ensures code == OK <==> !FailsAt(fault, 0)
      ensures code != OK ==> code == SERVER_ERROR && notices == []
      ensures code == OK ==>
                var ids := Listed(posts, NOTICE, nextId);
                && |notices| == |ids|
                && forall i :: 0 <= i < |ids| ==> notices[i] == NoticeItemOf(ids[i], posts[ids[i]].data)
    {
      if FailsAt(fault, 0) {
        return SERVER_ERROR, [];
      }
      var t := posts;
      var ids := Listed(t, NOTICE, nextId);
      notices := seq(|ids|, i requires 0 <= i < |ids| => NoticeItemOf(ids[i], t[ids[i]].data));
      code := OK;
    }

    /** `getNoticeDetail` and `getEventDetail`: both sync the statuses and
        then read the row by its key alone, whatever its category and
        whether or not it is deleted.  The result is the whole stored row
        with its numeric status: `getNoticeDetail` projects only id, title,
        content, image and creation day, and `getEventDetail` answers the
        status as its name (`StatusName`) with the dates as stored. */
    method GetDetail(id: int, now: string, fault: Fault) returns (code: int, row: Option<Post>)
      requires Valid()
      modifies this`posts
      ensures Valid()
      ensures id == 0 ==> code == BAD_REQUEST
      ensures id == 0 || FailsAt(fault, 0) ==> posts == old(posts)
      ensures id != 0 && !FailsAt(fault, 0) ==> posts == SyncAll(old(posts), now)
      ensures code == NOT_FOUND <==> id != 0 && !FailsBefore(fault, 2) && id !in old(posts)
      ensures code == OK <==> id != 0 && !FailsBefore(fault, 2) && id in old(posts)
      ensures row.Some? <==> code == OK
      ensures code == OK ==>
                row.value == posts[id].data &&
                row.value.status == EventStatus(now, old(posts)[id].data.startDate, old(posts)[id].data.endDate)
    {
      if id == 0 {
        return BAD_REQUEST, None;
      }
      var synced := SyncEventStatus(now, FailsAt(fault, 0));
      if !synced || FailsAt(fault, 1) {
        return SERVER_ERROR, None;
      }
      if id !in posts {
        return NOT_FOUND, None;
      }
      return OK, Some(posts[id].data);
    }

    /** `updateNotice`: the three fields must not be blank; they are stored as
        sent, untrimmed, in the row with that key, whatever its category and
        whether or not it is deleted. */
    method UpdateNotice(id: int, title: Option<string>, content: Option<string>, image: Option<string>,
                        fault: Fault) returns (code: int)
      requires Valid()
      modifies this`posts
      ensures Valid()
      ensures code == BAD_REQUEST <==>
                id == 0 || MissingOrBlank(title) || MissingOrBlank(content) || MissingOrBlank(image)
      ensures code == OK <==> code != BAD_REQUEST && !FailsAt(fault, 0) && id in old(posts)
      ensures code == NOT_FOUND <==> code != BAD_REQUEST && !FailsAt(fault, 0) && id !in old(posts)
      ensures code != OK ==> posts == old(posts)
      ensures code == OK ==>
                posts == old(posts)[id := Row(old(posts)[id].data.(title := title.value, content := content.value,
                                                                    image := image.value), old(posts)[id].isDeleted)]
    {
      if id == 0 || MissingOrBlank(title) || MissingOrBlank(content) || MissingOrBlank(image) {
        return BAD_REQUEST;
      }
      if FailsAt(fault, 0) {
        return SERVER_ERROR;
      }
      if id !in posts {
        return NOT_FOUND;
      }
      var p := posts[id];
      posts := posts[id := Row(p.data.(title := title.value, content := content.value, image := image.value), p.isDeleted)];
      return OK;
    }

    /** `deleteNotice` (`cate` 1) and `deleteEvent` (`cate` 0): flags the live
        row of that category with that key; anything else is 404. */
    method Delete(id: int, cate: int, fault: Fault) returns (code: int)
      requires Valid()
      modifies this`posts
      ensures Valid()
      ensures id == 0 ==> code == BAD_REQUEST && posts == old(posts)
      ensures id != 0 && FailsAt(fault, 0) ==> code == SERVER_ERROR && posts == old(posts)
      ensures id != 0 && !FailsAt(fault, 0) ==>
                var hit := id in old(posts) && old(posts)[id].isDeleted == 0 && old(posts)[id].data.cate == cate;
                && (code == OK <==> hit)
                && (code == NOT_FOUND <==> !hit)
                && posts == (if hit then old(posts)[id := Row(old(posts)[id].data, 1)] else old(posts))
    {
      if id == 0 {
        return BAD_REQUEST;
      }
      if FailsAt(fault, 0) {
        return SERVER_ERROR;
      }
      var r := GuardedSoftDelete(posts, id, (p: Post) => p.cate == cate);
      posts := r.0;
      code := r.1;
    }

    /** `createNotice`: a notice with the trimmed fields, no dates, status 0
        and `NOW()` as its creation time, under a fresh key. */
    method CreateNotice(title: Option<string>, content: Option<string>, image: Option<string>,
                        now: string, fault: Fault) returns (code: int, newId: int)
      requires Valid()
      modifies this
      ensures Valid()
      ensures code == BAD_REQUEST <==> MissingOrBlank(title) || MissingOrBlank(content) || MissingOrBlank(image)
      ensures code == CREATED <==> code != BAD_REQUEST && !FailsAt(fault, 0)
      ensures code != CREATED ==> posts == old(posts) && nextId == old(nextId)
      ensures code == CREATED ==>
                && newId == old(nextId) && newId !in old(posts)
                && posts == old(posts)[newId := Row(Post(NOTICE, Trim(title.value), Trim(content.value),
                                                         Trim(image.value), None, None, 0, now), 0)]
                && nextId == newId + 1
    {
      if MissingOrBlank(title) || MissingOrBlank(content) || MissingOrBlank(image) {
        return BAD_REQUEST, 0;
      }
      if FailsAt(fault, 0) {
        return SERVER_ERROR, 0;
      }
      newId := nextId;
      posts := posts[newId := Row(Post(NOTICE, Trim(title.value), Trim(content.value), Trim(image.value),
                                       None, None, 0, now), 0)];
      nextId := nextId + 1;
      code := CREATED;
    }

    /** `updateEvent`: besides the fields of a notice it needs both dates, the
        end not before the start; it stores the dates as sent, and the status
        they give at `now`, in the row with that key whatever its category.
        Unlike `createEvent` it does not pad the dates, so a bare end date
        means midnight at the start of that day (see
        `UpdatedEventEndsADayEarly`). */
    method UpdateEvent(id: int, title: Option<string>, content: Option<string>, image: Option<string>,
                       startDate: Option<string>, endDate: Option<string>, now: string, fault: Fault)
      returns (code: int)
      requires Valid()
      modifies this`posts
      ensures Valid()
      ensures code == BAD_REQUEST <==>
                id == 0 || MissingOrBlank(title) || MissingOrBlank(content) || MissingOrBlank(image) ||
                Falsy(startDate) || Falsy(endDate) || LexLess(endDate.value, startDate.value)
      ensures code == OK <==> code != BAD_REQUEST && !FailsAt(fault, 0) && id in old(posts)
      ensures code == NOT_FOUND <==> code != BAD_REQUEST && !FailsAt(fault, 0) && id !in old(posts)
      ensures code != OK ==> posts == old(posts)
      ensures code == OK ==>
                var (s, e) := UpdatedEventDatesAsWritten(startDate.value, endDate.value);
                posts == old(posts)[id := Row(old(posts)[id].data.(
                           title := title.value, content := content.value, image := image.value,
                           startDate := s, endDate := e, status := EventStatus(now, s, e)),
                         old(posts)[id].isDeleted)]
    {
      if id == 0 || MissingOrBlank(title) || MissingOrBlank(content) || MissingOrBlank(image) {
        return BAD_REQUEST;
      }
      if Falsy(startDate) || Falsy(endDate) || LexLess(endDate.value, startDate.value) {
        return BAD_REQUEST;
      }
      if FailsAt(fault, 0) {
        return SERVER_ERROR;
      }
      if id !in posts {
        return NOT_FOUND;
      }
      var (s, e) := UpdatedEventDatesAsWritten(startDate.value, endDate.value);
      var p := posts[id];
      posts := posts[id := Row(p.data.(title := title.value, content := content.value, image := image.value,
                                       startDate := s, endDate := e, status := EventStatus(now, s, e)),
                               p.isDeleted)];
      return OK;
    }

    /** `createEvent`: an event with the trimmed fields, its start padded to
        midnight and its end to the last second of the day, and the status
        those give at `now`, under a fresh key. */
    method CreateEvent(title: Option<string>, content: Option<string>, image: Option<string>,
                       startDate: Option<string>, endDate: Option<string>, now: string, fault: Fault)
      returns (code: int, newId: int)
      requires Valid()
      modifies this
      ensures Valid()
      ensures code == BAD_REQUEST <==>
                MissingOrBlank(title) || MissingOrBlank(content) || MissingOrBlank(image) ||
                Falsy(startDate) || Falsy(endDate) || LexLess(endDate.value, startDate.value)
      ensures code == CREATED <==> code != BAD_REQUEST && !FailsAt(fault, 0)
      ensures code != CREATED ==> posts == old(posts) && nextId == old(nextId)
      ensures code == CREATED ==>
                var (s, e) := (ToStartDateTime(startDate), ToEndDateTime(endDate));
                && newId == old(nextId) && newId !in old(posts)
                && posts == old(posts)[newId := Row(Post(EVENT, Trim(title.value), Trim(content.value),
                                                         Trim(image.value), s, e, EventStatus(now, s, e), now), 0)]
                && nextId == newId + 1
    {
      if MissingOrBlank(title) || MissingOrBlank(content) || MissingOrBlank(image) {
        return BAD_REQUEST, 0;
      }
      if Falsy(startDate) || Falsy(endDate) || LexLess(endDate.value, startDate.value) {
        return BAD_REQUEST, 0;
      }
      if FailsAt(fault, 0) {
        return SERVER_ERROR, 0;
      }
      var s := ToStartDateTime(startDate);
      var e := ToEndDateTime(endDate);
      newId := nextId;
      posts := posts[newId := Row(Post(EVENT, Trim(title.value), Trim(content.value), Trim(image.value),
                                       s, e, EventStatus(now, s, e), now), 0)];
      nextId := nextId + 1;
      code := CREATED;
    }
  }
}
