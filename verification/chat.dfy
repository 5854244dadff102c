/** The chat subsystem: rooms anchored to a (goods, buyer, seller) triple,
    the messages posted in them and, per (room, user), how far that user has
    read.  Each handler is a method of `ChatDb`, whose fields are the tables;
    the SQL statements are the pure functions before it. */
module Chat {
  import opened Common
  import Sorting

  /** A value of `NOW()`. */
  type Time = int

  /** A row of `dam_chat_rooms`. */
  datatype Room = Room(
    chatId: int,
    goodsId: int,
    buyerId: int,
    sellerId: int,
    lastMessageId: Option<int>,
    lastMessageAt: Option<Time>,
    createdAt: Time)

  /** A row of `dam_chat_messages`; never changed once inserted. */
  datatype Message = Message(id: int, chatId: int, userId: int, content: string, createdAt: Time)

  /** A row of `dam_chat_room_user_state`, keyed by (chat_id, user_id). */
  datatype ReadState = ReadState(
    lastRead: Option<int>,
    lastReadAt: Option<Time>,
    leftAt: Option<Time>,
    createdAt: Time)

  type StateKey = (int, int)

  // ---------------------------------------------------------------------
  // Table invariants
  // ---------------------------------------------------------------------

  /** `chat_id` is an AUTO_INCREMENT key: read in table order, every room
      id is positive, above the one before it and below `next`, the value
      the counter hands out next. */
  predicate RoomIdsIncreasing(rooms: seq<Room>, next: int)
  {
    rooms == [] ||
    (var last := rooms[|rooms| - 1];
     RoomIdsIncreasing(rooms[..|rooms| - 1], last.chatId) && 1 <= last.chatId < next)
  }

  /** The same for `message_id`. */
  predicate MessageIdsIncreasing(msgs: seq<Message>, next: int)
  {
    msgs == [] ||
    (var last := msgs[|msgs| - 1];
     MessageIdsIncreasing(msgs[..|msgs| - 1], last.id) && 1 <= last.id < next)
  }

  /** What the increasing ids mean position by position. */
  lemma {:induction false} RoomIdsIncreasingPairwise(rooms: seq<Room>, next: int)
    requires RoomIdsIncreasing(rooms, next)
    ensures forall i :: 0 <= i < |rooms| ==> 1 <= rooms[i].chatId < next
    ensures forall i, j :: 0 <= i < j < |rooms| ==> rooms[i].chatId < rooms[j].chatId
  {
    if rooms != [] {
      var init := rooms[..|rooms| - 1];
      RoomIdsIncreasingPairwise(init, rooms[|rooms| - 1].chatId);
      assert forall i :: 0 <= i < |init| ==> rooms[i] == init[i];
    }
  }

  /** Every message id lies between 1 and the counter. */
  lemma {:induction false} MessageIdsInRange(msgs: seq<Message>, next: int)
    requires MessageIdsIncreasing(msgs, next)
    ensures forall i :: 0 <= i < |msgs| ==> 1 <= msgs[i].id < next
  {
    if msgs != [] {
      var init := msgs[..|msgs| - 1];
      MessageIdsInRange(init, msgs[|msgs| - 1].id);
      assert forall i :: 0 <= i < |init| ==> msgs[i] == init[i];
    }
  }

  lemma {:induction false} MessageIdsIncreasingPairwise(msgs: seq<Message>, next: int)
    requires MessageIdsIncreasing(msgs, next)
    ensures forall i :: 0 <= i < |msgs| ==> 1 <= msgs[i].id < next
    ensures forall i, j :: 0 <= i < j < |msgs| ==> msgs[i].id < msgs[j].id
  {
    if msgs != [] {
      var init := msgs[..|msgs| - 1];
      MessageIdsIncreasingPairwise(init, msgs[|msgs| - 1].id);
      assert forall i :: 0 <= i < |init| ==> msgs[i] == init[i];
    }
  }

  /** The UNIQUE KEY (goods_id, buyer_id, seller_id) of `dam_chat_rooms`:
      no room repeats the triple of a room before it. */
  predicate UniqueTriples(rooms: seq<Room>)
  {
    rooms == [] ||
    (var last := rooms[|rooms| - 1];
     UniqueTriples(rooms[..|rooms| - 1]) &&
     RoomFor(rooms[..|rooms| - 1], last.goodsId, last.buyerId, last.sellerId).None?)
  }

  /** No two rooms share a triple. */
  lemma {:induction false} UniqueTriplesPairwise(rooms: seq<Room>)
    requires UniqueTriples(rooms)
    ensures forall i, j :: 0 <= i < j < |rooms| ==>
              (rooms[i].goodsId, rooms[i].buyerId, rooms[i].sellerId) !=
              (rooms[j].goodsId, rooms[j].buyerId, rooms[j].sellerId)
  {
    if rooms != [] {
      var init := rooms[..|rooms| - 1];
      var last := rooms[|rooms| - 1];
      UniqueTriplesPairwise(init);
      RoomForSpec(init, last.goodsId, last.buyerId, last.sellerId);
      forall i, j | 0 <= i < j < |rooms|
        ensures (rooms[i].goodsId, rooms[i].buyerId, rooms[i].sellerId) !=
                (rooms[j].goodsId, rooms[j].buyerId, rooms[j].sellerId)
      {
        assert rooms[i] == init[i];
        if j < |init| { assert rooms[j] == init[j]; }
      }
    }
  }

  /** The `chat_id` column of the room table. */
  function ChatIds(rooms: seq<Room>): set<int>
  {
    if rooms == [] then {} else ChatIds(rooms[..|rooms| - 1]) + {rooms[|rooms| - 1].chatId}
  }

  /** `ChatIds` holds exactly the ids of the rooms in the table. */
  lemma {:induction false} ChatIdsSpec(rooms: seq<Room>)
    ensures forall c :: c in ChatIds(rooms) <==> exists i :: 0 <= i < |rooms| && rooms[i].chatId == c
  {
    if rooms != [] {
      var init := rooms[..|rooms| - 1];
      ChatIdsSpec(init);
      forall c | c in ChatIds(init) ensures exists i :: 0 <= i < |rooms| && rooms[i].chatId == c {
        var i :| 0 <= i < |init| && init[i].chatId == c;
        assert rooms[i] == init[i];
      }
      forall c | exists i :: 0 <= i < |rooms| && rooms[i].chatId == c ensures c in ChatIds(rooms) {
        var i :| 0 <= i < |rooms| && rooms[i].chatId == c;
        if i < |init| { assert init[i] == rooms[i]; }
      }
    }
  }

  predicate HasRoom(rooms: seq<Room>, chatId: int)
  {
    chatId in ChatIds(rooms)
  }

  /** Every message belongs to an existing room (the foreign key of
      `dam_chat_messages.chat_id`). */
  predicate MessagesInRooms(msgs: seq<Message>, rooms: seq<Room>)
  {
    forall i :: 0 <= i < |msgs| ==> HasRoom(rooms, msgs[i].chatId)
  }

  // ---------------------------------------------------------------------
  // Room resolution
  // ---------------------------------------------------------------------

  /** Position `i` holds room `chatId` of the triple. */
  predicate RoomAt(rooms: seq<Room>, i: int, chatId: int, goodsId: int, buyerId: int, sellerId: int)
  {
    0 <= i < |rooms| && rooms[i].chatId == chatId &&
    (rooms[i].goodsId, rooms[i].buyerId, rooms[i].sellerId) == (goodsId, buyerId, sellerId)
  }

  /** `SELECT chat_id FROM dam_chat_rooms WHERE goods_id = ? AND buyer_id = ?
      AND seller_id = ? LIMIT 1`. */
  function RoomFor(rooms: seq<Room>, goodsId: int, buyerId: int, sellerId: int): Option<int>
  {
    if rooms == [] then None
    else if (rooms[0].goodsId, rooms[0].buyerId, rooms[0].sellerId) == (goodsId, buyerId, sellerId)
    then Some(rooms[0].chatId)
    else RoomFor(rooms[1..], goodsId, buyerId, sellerId)
  }

  /** The lookup finds nothing exactly when no room has the triple, and what
      it finds is the id of a room with the triple. */
  lemma {:induction false} RoomForSpec(rooms: seq<Room>, g: int, b: int, s: int)
    ensures RoomFor(rooms, g, b, s).None? <==>
              forall i :: 0 <= i < |rooms| ==> (rooms[i].goodsId, rooms[i].buyerId, rooms[i].sellerId) != (g, b, s)
    ensures RoomFor(rooms, g, b, s).Some? ==> exists i :: RoomAt(rooms, i, RoomFor(rooms, g, b, s).value, g, b, s)
  {
    if rooms == [] {
    } else if (rooms[0].goodsId, rooms[0].buyerId, rooms[0].sellerId) == (g, b, s) {
      assert RoomAt(rooms, 0, rooms[0].chatId, g, b, s);
    } else {
      RoomForSpec(rooms[1..], g, b, s);
      var r := RoomFor(rooms[1..], g, b, s);
      if r.Some? {
        var i :| RoomAt(rooms[1..], i, r.value, g, b, s);
        assert RoomAt(rooms, i + 1, r.value, g, b, s);
      }
      forall i | 1 <= i < |rooms| ensures rooms[i] == rooms[1..][i - 1] { }
    }
  }

  /** `INSERT INTO dam_chat_rooms ... ON DUPLICATE KEY UPDATE chat_id =
      LAST_INSERT_ID(chat_id)`: the existing room of the triple, or a new one
      with the next id.  Returns the table and the room's id. */
  function UpsertRoom(rooms: seq<Room>, nextId: int, goodsId: int, buyerId: int, sellerId: int, now: Time)
    : (seq<Room>, int)
  {
    match RoomFor(rooms, goodsId, buyerId, sellerId)
    case Some(c) => (rooms, c)
    case None => (rooms + [Room(nextId, goodsId, buyerId, sellerId, None, None, now)], nextId)
  }

  /** The upsert reuses the room of the triple when there is one and
      otherwise appends exactly one room with the next id; either way the
      triple then resolves to the returned id, and the UNIQUE KEY still
      holds. */
  lemma UpsertRoomSpec(rooms: seq<Room>, nextId: int, g: int, b: int, s: int, now: Time)
    ensures var r := UpsertRoom(rooms, nextId, g, b, s, now);
            && (RoomFor(rooms, g, b, s).Some? ==> r == (rooms, RoomFor(rooms, g, b, s).value))
            && (RoomFor(rooms, g, b, s).None? ==> r == (rooms + [Room(nextId, g, b, s, None, None, now)], nextId))
            && RoomFor(r.0, g, b, s) == Some(r.1)
            && (UniqueTriples(rooms) ==> UniqueTriples(r.0))
  {
    if RoomFor(rooms, g, b, s).None? {
      var x := Room(nextId, g, b, s, None, None, now);
      RoomForAppend(rooms, x, g, b, s);
      assert (rooms + [x])[..|rooms|] == rooms;
    }
  }

  lemma {:induction false} RoomForAppend(rooms: seq<Room>, x: Room, g: int, b: int, s: int)
    requires RoomFor(rooms, g, b, s).None?
    ensures RoomFor(rooms + [x], g, b, s) ==
              (if (x.goodsId, x.buyerId, x.sellerId) == (g, b, s) then Some(x.chatId) else None)
  {
    if rooms != [] {
      assert (rooms + [x])[1..] == rooms[1..] + [x];
      RoomForAppend(rooms[1..], x, g, b, s);
    }
  }

  /** Resolving the same (goods, buyer, seller) twice yields the same room
      and creates nothing the second time: at most one room per triple. */
  lemma UpsertRoomIdempotent(rooms: seq<Room>, nextId: int, g: int, b: int, s: int, now: Time, later: Time)
    ensures var (rooms1, c1) := UpsertRoom(rooms, nextId, g, b, s, now);
            var (rooms2, c2) := UpsertRoom(rooms1, nextId + 1, g, b, s, later);
            rooms2 == rooms1 && c2 == c1 && |rooms1| <= |rooms| + 1
  {
    UpsertRoomSpec(rooms, nextId, g, b, s, now);
    var (rooms1, c1) := UpsertRoom(rooms, nextId, g, b, s, now);
    UpsertRoomSpec(rooms1, nextId + 1, g, b, s, later);
  }

  /** `UPDATE dam_chat_rooms SET last_message_id = ?, last_message_at = NOW()
      WHERE chat_id = ?`. */
  function SetLastMessage(rooms: seq<Room>, chatId: int, messageId: int, now: Time): seq<Room>
  {
    if rooms == [] then []
    else
      var x := rooms[|rooms| - 1];
      SetLastMessage(rooms[..|rooms| - 1], chatId, messageId, now) +
      [if x.chatId == chatId then x.(lastMessageId := Some(messageId), lastMessageAt := Some(now)) else x]
  }

  /** The update rewrites the two pointer columns of the rows with that
      `chat_id` and leaves every other row, and every other column, as it
      was. */
  lemma {:induction false} SetLastMessageSpec(rooms: seq<Room>, chatId: int, messageId: int, now: Time)
    ensures var r := SetLastMessage(rooms, chatId, messageId, now);
            && |r| == |rooms|
            && forall i :: 0 <= i < |rooms| ==>
                 r[i] == if rooms[i].chatId == chatId
                         then rooms[i].(lastMessageId := Some(messageId), lastMessageAt := Some(now))
                         else rooms[i]
  {
    if rooms != [] {
      SetLastMessageSpec(rooms[..|rooms| - 1], chatId, messageId, now);
    }
  }

  // ---------------------------------------------------------------------
  // Read state
  // ---------------------------------------------------------------------

  function Max(a: int, b: int): int
  {
    if a < b then b else a
  }

  /** `SELECT IFNULL(MAX(message_id), 0) FROM dam_chat_messages WHERE chat_id = ?`. */
  function LatestMessageId(msgs: seq<Message>, chatId: int): (r: int)
    ensures forall i :: 0 <= i < |msgs| && msgs[i].chatId == chatId ==> msgs[i].id <= r
    ensures r != 0 ==> exists i :: 0 <= i < |msgs| && msgs[i].chatId == chatId && msgs[i].id == r
    ensures (forall i :: 0 <= i < |msgs| ==> msgs[i].chatId != chatId) ==> r == 0
  {
    if msgs == [] then 0
    else
      var rest := LatestMessageId(msgs[..|msgs| - 1], chatId);
      var last := msgs[|msgs| - 1];
      if last.chatId == chatId then Max(rest, last.id) else rest
  }

  /** "Never behind": the second last-read value is at least the first, a
      set value never going back to NULL. */
  predicate NotBehind(before: Option<int>, after: Option<int>)
  {
    before.None? || (after.Some? && before.value <= after.value)
  }

  /** The upsert of a last-read value, as both `markReadToLatest` and the
      two send transactions write it:
      `INSERT ... VALUES (chat, user, v, NOW(), NOW()) ON DUPLICATE KEY UPDATE
       last_read_message_id = CASE WHEN v IS NULL THEN last_read_message_id
         ELSE GREATEST(IFNULL(last_read_message_id, 0), v) END,
       last_read_at = NOW()`. */
  function UpsertLastRead(prev: Option<ReadState>, v: Option<int>, now: Time): ReadState
  {
    match prev
    case None => ReadState(v, Some(now), None, now)
    case Some(p) =>
      p.(lastRead := if v.None? then p.lastRead else Some(Max(IfNull0(p.lastRead), v.value)),
         lastReadAt := Some(now))
  }

  /** A new row takes the value as given; an existing row keeps a NULL
      request from erasing its value, otherwise takes the larger of the two,
      so the value never moves back; `left_at` and `created_at` survive. */
  lemma UpsertLastReadSpec(prev: Option<ReadState>, v: Option<int>, now: Time)
    ensures var r := UpsertLastRead(prev, v, now);
            && (prev.None? ==> r == ReadState(v, Some(now), None, now))
            && (prev.Some? && v.None? ==> r.lastRead == prev.value.lastRead)
            && (prev.Some? && v.Some? ==>
                  && r.lastRead.Some?
                  && r.lastRead.value >= v.value && r.lastRead.value >= IfNull0(prev.value.lastRead)
                  && (r.lastRead.value == v.value || r.lastRead.value == IfNull0(prev.value.lastRead)))
            && (prev.Some? ==> NotBehind(prev.value.lastRead, r.lastRead))
            && (prev.Some? ==> r.leftAt == prev.value.leftAt && r.createdAt == prev.value.createdAt)
            && r.lastReadAt == Some(now)
  {
  }

  /** No (room, user) row disappears and no last-read value moves back. */
  predicate ReadStatesGrow(before: map<StateKey, ReadState>, after: map<StateKey, ReadState>)
  {
    forall k :: k in before ==> k in after && NotBehind(before[k].lastRead, after[k].lastRead)
  }

  lemma ReadStatesGrowTransitive(s0: map<StateKey, ReadState>, s1: map<StateKey, ReadState>,
                                 s2: map<StateKey, ReadState>)
    requires ReadStatesGrow(s0, s1) && ReadStatesGrow(s1, s2)
    ensures ReadStatesGrow(s0, s2)
  {
  }

  /** Upserting one key keeps every last-read value where it was or later. */
  lemma UpsertGrows(states: map<StateKey, ReadState>, k: StateKey, v: Option<int>, now: Time)
    ensures ReadStatesGrow(states, states[k := UpsertLastRead(if k in states then Some(states[k]) else None, v, now)])
  {
    UpsertLastReadSpec(if k in states then Some(states[k]) else None, v, now);
  }

  /** `INSERT IGNORE INTO dam_chat_room_user_state (chat_id, user_id,
      created_at) VALUES (?, ?, NOW())`: a fresh row only where none exists. */
  function InsertIgnoreState(states: map<StateKey, ReadState>, k: StateKey, now: Time): map<StateKey, ReadState>
  {
    if k in states then states else states[k := ReadState(None, None, None, now)]
  }

  /** Messages in a room authored by someone other than `userId` with an id
      above `IFNULL(lastRead, 0)`: the `unreadCount` sub-query. */
  function UnreadCount(msgs: seq<Message>, chatId: int, userId: int, lastRead: Option<int>): (r: nat)
    ensures r <= |msgs|
  {
    if msgs == [] then 0
    else
      var m := msgs[|msgs| - 1];
      UnreadCount(msgs[..|msgs| - 1], chatId, userId, lastRead) +
      (if m.chatId == chatId && m.userId != userId && m.id > IfNull0(lastRead) then 1 else 0)
  }

  /** Nothing is unread for a user whose last-read value is at least every
      message id of the room. */
  lemma {:induction false} NothingUnreadPastLatest(msgs: seq<Message>, chatId: int, userId: int, lastRead: Option<int>)
    requires forall i :: 0 <= i < |msgs| && msgs[i].chatId == chatId ==> msgs[i].id <= IfNull0(lastRead)
    ensures UnreadCount(msgs, chatId, userId, lastRead) == 0
  {
    if msgs != [] {
      NothingUnreadPastLatest(msgs[..|msgs| - 1], chatId, userId, lastRead);
    }
  }

  /** A user's own messages never count as unread for that user. */
  lemma {:induction false} OwnMessagesNotUnread(msgs: seq<Message>, chatId: int, userId: int, lastRead: Option<int>)
    requires forall i :: 0 <= i < |msgs| && msgs[i].chatId == chatId && msgs[i].id > IfNull0(lastRead) ==>
               msgs[i].userId == userId
    ensures UnreadCount(msgs, chatId, userId, lastRead) == 0
  {
    if msgs != [] {
      OwnMessagesNotUnread(msgs[..|msgs| - 1], chatId, userId, lastRead);
    }
  }

  /** The worked example: ids 10, 11, 12 written by A, B, A; B has read up
      to 10, so exactly one message (12) is unread for B. */
  lemma UnreadExample(a: int, b: int, c: int)
    requires a != b
    ensures UnreadCount([Message(10, c, a, "x", 0), Message(11, c, b, "y", 0), Message(12, c, a, "z", 0)],
                        c, b, Some(10)) == 1
  {
    var msgs := [Message(10, c, a, "x", 0), Message(11, c, b, "y", 0), Message(12, c, a, "z", 0)];
    assert msgs[..2] == [msgs[0], msgs[1]];
    assert msgs[..2][..1] == [msgs[0]];
    assert msgs[..2][..1][..0] == [];
    assert UnreadCount([msgs[0]], c, b, Some(10)) == 0;
    assert UnreadCount(msgs[..2], c, b, Some(10)) == 0;
  }

  // ---------------------------------------------------------------------
  // Room list
  // ---------------------------------------------------------------------

  /** One row of the `getMyChatRooms` answer. */
  datatype RoomRow = RoomRow(
    chatId: int,
    goodsId: int,
    buyerId: int,
    sellerId: int,
    lastMessageAt: Option<Time>,
    lastText: Option<string>,
    otherUserId: int,
    lastReadMessageId: int,
    unreadCount: nat)

  /** `CASE WHEN r.buyer_id = ? THEN seller ELSE buyer END`. */
  function OtherUser(room: Room, userId: int): (r: int)
    ensures room.buyerId == userId ==> r == room.sellerId
    ensures room.buyerId != userId ==> r == room.buyerId
  {
    if room.buyerId == userId then room.sellerId else room.buyerId
  }

  /** `LEFT JOIN dam_chat_messages lm ON lm.message_id = r.last_message_id`. */
  function MessageText(msgs: seq<Message>, id: Option<int>): Option<string>
  {
    if id.None? || msgs == [] then None
    else if msgs[0].id == id.value then Some(msgs[0].content)
    else MessageText(msgs[1..], id)
  }

  /** The WHERE clause: the user is a participant, both participants exist
      in `damteul_users` (the inner joins), and the user has no read-state
      row or one without `left_at`. */
  predicate Listed(room: Room, userId: int, users: set<int>, states: map<StateKey, ReadState>)
  {
    (room.buyerId == userId || room.sellerId == userId) &&
    room.buyerId in users && room.sellerId in users &&
    ((room.chatId, userId) !in states || states[(room.chatId, userId)].leftAt.None?)
  }

  function RowOf(room: Room, userId: int, msgs: seq<Message>, states: map<StateKey, ReadState>): (r: RoomRow)
  {
    var lastRead := if (room.chatId, userId) in states then states[(room.chatId, userId)].lastRead else None;
    RoomRow(room.chatId, room.goodsId, room.buyerId, room.sellerId, room.lastMessageAt,
            MessageText(msgs, room.lastMessageId), OtherUser(room, userId), IfNull0(lastRead),
            UnreadCount(msgs, room.chatId, userId, lastRead))
  }

  /** `x` is the answer row of a room that survives the WHERE clause. */
  predicate ListedRow(x: RoomRow, rooms: seq<Room>, userId: int, users: set<int>, msgs: seq<Message>,
                      states: map<StateKey, ReadState>)
  {
    exists i :: 0 <= i < |rooms| && Listed(rooms[i], userId, users, states) && x == RowOf(rooms[i], userId, msgs, states)
  }

  /** The rows that survive the WHERE clause, in table order. */
  function ListedRows(rooms: seq<Room>, userId: int, users: set<int>, msgs: seq<Message>,
                      states: map<StateKey, ReadState>): (r: seq<RoomRow>)
    ensures forall x :: x in r ==> ListedRow(x, rooms, userId, users, msgs, states)
    ensures forall i :: 0 <= i < |rooms| && Listed(rooms[i], userId, users, states) ==>
              RowOf(rooms[i], userId, msgs, states) in r
  {
    if rooms == [] then []
    else
      var rest := ListedRows(rooms[1..], userId, users, msgs, states);
      if Listed(rooms[0], userId, users, states)
      then [RowOf(rooms[0], userId, msgs, states)] + rest
      else rest
  }

  /** `ORDER BY r.last_message_at DESC, r.chat_id DESC`; MySQL puts NULL
      below every time, so with DESC rooms without a message come last. */
  predicate Before(a: RoomRow, b: RoomRow)
  {
    match (a.lastMessageAt, b.lastMessageAt)
    case (Some(x), Some(y)) => x > y || (x == y && a.chatId > b.chatId)
    case (Some(_), None) => true
    case (None, Some(_)) => false
    case (None, None) => a.chatId > b.chatId
  }

  /** No row is preceded by one that should come after it. */
  ghost predicate Ordered(rows: seq<RoomRow>)
  {
    Sorting.Ordered(rows, Before)
  }

  /** The room order is one an `ORDER BY` can sort by. */
  lemma BeforeIsStrictWeakOrder()
    ensures Sorting.StrictWeakOrder(Before)
  {
  }

  /** The whole `getMyChatRooms` query. */
  function MyRooms(rooms: seq<Room>, userId: int, users: set<int>, msgs: seq<Message>,
                   states: map<StateKey, ReadState>): (r: seq<RoomRow>)
  {
    Sorting.Sort(ListedRows(rooms, userId, users, msgs, states), Before)
  }

  /** What the room list promises: exactly the listed rooms, each with the
      other participant and the unread count of the user, most recent
      activity first. */
  lemma MyRoomsSpec(rooms: seq<Room>, userId: int, users: set<int>, msgs: seq<Message>,
                    states: map<StateKey, ReadState>)
    ensures var r := MyRooms(rooms, userId, users, msgs, states);
            && Ordered(r)
            && (forall x :: x in r <==> ListedRow(x, rooms, userId, users, msgs, states))
            && (forall x :: x in r ==> x.otherUserId == (if x.buyerId == userId then x.sellerId else x.buyerId))
            && (forall x :: x in r ==> x.buyerId == userId || x.sellerId == userId)
  {
    var listed := ListedRows(rooms, userId, users, msgs, states);
    var r := MyRooms(rooms, userId, users, msgs, states);
    BeforeIsStrictWeakOrder();
    Sorting.SortOrdered(listed, Before);
    assert forall x :: x in r <==> x in listed by {
      forall x ensures x in r <==> x in listed {
        assert x in r <==> x in multiset(r);
        assert x in listed <==> x in multiset(listed);
      }
    }
  }

  // ---------------------------------------------------------------------
  // Message listing
  // ---------------------------------------------------------------------

  /** `SELECT ... FROM dam_chat_messages m JOIN damteul_users u ... WHERE
      m.chat_id = ? ORDER BY m.message_id ASC`. */
  function MessagesOf(msgs: seq<Message>, chatId: int, users: set<int>): (r: seq<Message>)
    ensures forall x :: x in r <==> x in msgs && x.chatId == chatId && x.userId in users
  {
    if msgs == [] then []
    else
      var init := msgs[..|msgs| - 1];
      var m := msgs[|msgs| - 1];
      var rest := MessagesOf(init, chatId, users);
      assert msgs == init + [m];
      if m.chatId == chatId && m.userId in users then rest + [m] else rest
  }

  /** The listing keeps the table's id order: `ORDER BY message_id ASC`
      holds without sorting because the ids grow with insertion. */
  lemma {:induction false} MessagesOfIncreasing(msgs: seq<Message>, chatId: int, users: set<int>, next: int)
    requires MessageIdsIncreasing(msgs, next)
    ensures MessageIdsIncreasing(MessagesOf(msgs, chatId, users), next)
  {
    if msgs != [] {
      var init := msgs[..|msgs| - 1];
      var m := msgs[|msgs| - 1];
      var rest := MessagesOf(init, chatId, users);
      MessagesOfIncreasing(init, chatId, users, m.id);
      if m.chatId == chatId && m.userId in users {
        assert (rest + [m])[..|rest|] == rest;
      }
    }
  }

  /** The three chat tables and the AUTO_INCREMENT counters of the first
      two. */
  datatype Tables = Tables(
    rooms: seq<Room>,
    messages: seq<Message>,
    states: map<StateKey, ReadState>,
    nextChatId: int,
    nextMessageId: int)

  /** The invariants of the chat tables and their counters. */
  predicate Consistent(t: Tables)
  {
    1 <= t.nextChatId && 1 <= t.nextMessageId &&
    RoomIdsIncreasing(t.rooms, t.nextChatId) &&
    MessageIdsIncreasing(t.messages, t.nextMessageId) &&
    UniqueTriples(t.rooms) &&
    MessagesInRooms(t.messages, t.rooms)
  }

  // ---------------------------------------------------------------------
  // How the writes keep the table invariants
  // ---------------------------------------------------------------------

  /** `RoomFor` only looks at the key columns. */
  lemma {:induction false} RoomForSameTriples(r1: seq<Room>, r2: seq<Room>, g: int, b: int, s: int)
    requires |r1| == |r2|
    requires forall i :: 0 <= i < |r1| ==>
      (r1[i].chatId, r1[i].goodsId, r1[i].buyerId, r1[i].sellerId) ==
      (r2[i].chatId, r2[i].goodsId, r2[i].buyerId, r2[i].sellerId)
    ensures RoomFor(r1, g, b, s) == RoomFor(r2, g, b, s)
  {
    if r1 != [] {
      RoomForSameTriples(r1[1..], r2[1..], g, b, s);
    }
  }

  lemma SetLastMessageKeepsRoomFor(rooms: seq<Room>, chatId: int, mid: int, now: Time, g: int, b: int, s: int)
    ensures RoomFor(SetLastMessage(rooms, chatId, mid, now), g, b, s) == RoomFor(rooms, g, b, s)
  {
    SetLastMessageSpec(rooms, chatId, mid, now);
    RoomForSameTriples(rooms, SetLastMessage(rooms, chatId, mid, now), g, b, s);
  }

  /** Moving a room's last-message pointer touches no key column, so the
      invariants of the room table and its set of ids survive it. */
  lemma SetLastMessageKeepsKeys(rooms: seq<Room>, chatId: int, mid: int, now: Time, next: int)
    ensures var r := SetLastMessage(rooms, chatId, mid, now);
            && (RoomIdsIncreasing(rooms, next) ==> RoomIdsIncreasing(r, next))
            && (UniqueTriples(rooms) ==> UniqueTriples(r))
            && ChatIds(r) == ChatIds(rooms)
  {
    SetLastMessageKeepsIds(rooms, chatId, mid, now, next);
    SetLastMessageKeepsTriples(rooms, chatId, mid, now);
  }

  lemma {:induction false} SetLastMessageKeepsIds(rooms: seq<Room>, chatId: int, mid: int, now: Time, next: int)
    ensures var r := SetLastMessage(rooms, chatId, mid, now);
            && |r| == |rooms|
            && (r != [] ==> r[|r| - 1].chatId == rooms[|rooms| - 1].chatId)
            && (RoomIdsIncreasing(rooms, next) ==> RoomIdsIncreasing(r, next))
            && ChatIds(r) == ChatIds(rooms)
  {
    if rooms != [] {
      var init := rooms[..|rooms| - 1];
      var r := SetLastMessage(rooms, chatId, mid, now);
      SetLastMessageKeepsIds(init, chatId, mid, now, rooms[|rooms| - 1].chatId);
      assert r[..|r| - 1] == SetLastMessage(init, chatId, mid, now);
    }
  }

  lemma {:induction false} SetLastMessageKeepsTriples(rooms: seq<Room>, chatId: int, mid: int, now: Time)
    ensures UniqueTriples(rooms) ==> UniqueTriples(SetLastMessage(rooms, chatId, mid, now))
  {
    if rooms != [] {
      var init := rooms[..|rooms| - 1];
      var last := rooms[|rooms| - 1];
      var r := SetLastMessage(rooms, chatId, mid, now);
      SetLastMessageKeepsTriples(init, chatId, mid, now);
      SetLastMessageKeepsRoomFor(init, chatId, mid, now, last.goodsId, last.buyerId, last.sellerId);
      assert r[..|r| - 1] == SetLastMessage(init, chatId, mid, now);
    }
  }

  /** The ids of the rooms are below the counter. */
  lemma {:induction false} RoomIdsBelow(rooms: seq<Room>, next: int)
    requires RoomIdsIncreasing(rooms, next)
    ensures forall c :: c in ChatIds(rooms) ==> c < next
  {
    if rooms != [] {
      RoomIdsBelow(rooms[..|rooms| - 1], rooms[|rooms| - 1].chatId);
    }
  }

  /** Pointing a room id that is not in the table at a message changes
      nothing. */
  lemma {:induction false} SetLastMessageAbsent(rooms: seq<Room>, chatId: int, mid: int, now: Time)
    requires chatId !in ChatIds(rooms)
    ensures SetLastMessage(rooms, chatId, mid, now) == rooms
  {
    if rooms != [] {
      SetLastMessageAbsent(rooms[..|rooms| - 1], chatId, mid, now);
      assert rooms == rooms[..|rooms| - 1] + [rooms[|rooms| - 1]];
    }
  }

  /** A room created with the next id keeps the ids increasing, and moving
      its pointer leaves every older room as it was. */
  lemma NewRoom(rooms: seq<Room>, next: int, x: Room, mid: int, now: Time)
    requires RoomIdsIncreasing(rooms, next) && x.chatId == next && 1 <= next
    ensures RoomIdsIncreasing(rooms + [x], next + 1)
    ensures ChatIds(rooms + [x]) == ChatIds(rooms) + {next}
    ensures SetLastMessage(rooms + [x], next, mid, now) ==
              rooms + [x.(lastMessageId := Some(mid), lastMessageAt := Some(now))]
  {
    assert (rooms + [x])[..|rooms|] == rooms;
    RoomIdsBelow(rooms, next);
    SetLastMessageAbsent(rooms, next, mid, now);
  }

  /** Appending a message with the next id, in an existing room, keeps the
      message table's invariants. */
  lemma NewMessage(msgs: seq<Message>, next: int, m: Message, rooms: seq<Room>, rooms': seq<Room>)
    requires MessageIdsIncreasing(msgs, next) && m.id == next && 1 <= next
    requires MessagesInRooms(msgs, rooms)
    requires ChatIds(rooms) <= ChatIds(rooms')
    requires HasRoom(rooms', m.chatId)
    ensures MessageIdsIncreasing(msgs + [m], next + 1)
    ensures MessagesInRooms(msgs + [m], rooms')
  {
    var r := msgs + [m];
    assert r[..|msgs|] == msgs;
    forall i | 0 <= i < |r| ensures HasRoom(rooms', r[i].chatId) {
      if i < |msgs| { assert r[i] == msgs[i]; assert HasRoom(rooms, msgs[i].chatId); }
    }
  }

  /** The room upsert of `sendFirstMessage` followed by the pointer update:
      the room of the triple is the one that was there, or exactly one room
      appended with the next id, and the room table keeps its invariants. */
  lemma UpsertThenPoint(rooms: seq<Room>, next: int, g: int, b: int, s: int, mid: int, now: Time)
    requires RoomIdsIncreasing(rooms, next) && UniqueTriples(rooms) && 1 <= next
    ensures var (rooms1, c) := UpsertRoom(rooms, next, g, b, s, now);
            var rooms2 := SetLastMessage(rooms1, c, mid, now);
            var existing := RoomFor(rooms, g, b, s);
            && RoomIdsIncreasing(rooms2, if existing.None? then next + 1 else next)
            && UniqueTriples(rooms2)
            && ChatIds(rooms) <= ChatIds(rooms2) && c in ChatIds(rooms2)
            && RoomFor(rooms2, g, b, s) == Some(c)
            && (existing.Some? ==> c == existing.value && rooms2 == SetLastMessage(rooms, c, mid, now))
            && (existing.None? ==> c == next && rooms2 == rooms + [Room(c, g, b, s, Some(mid), Some(now), now)])
  {
    var existing := RoomFor(rooms, g, b, s);
    var (rooms1, c) := UpsertRoom(rooms, next, g, b, s, now);
    var nextChat := if existing.None? then next + 1 else next;
    UpsertRoomSpec(rooms, next, g, b, s, now);
    RoomForSpec(rooms, g, b, s);
    if existing.None? {
      NewRoom(rooms, next, rooms1[|rooms|], mid, now);
      assert rooms1 == rooms + [rooms1[|rooms|]];
    } else {
      var i :| RoomAt(rooms, i, c, g, b, s);
      assert rooms1[i].chatId == c;
      ChatIdsSpec(rooms1);
    }
    assert RoomIdsIncreasing(rooms1, nextChat);
    SetLastMessageKeepsKeys(rooms1, c, mid, now, nextChat);
    SetLastMessageKeepsRoomFor(rooms1, c, mid, now, g, b, s);
  }

  /** The read-state writes of `sendFirstMessage`: `INSERT IGNORE` of the
      buyer's and the seller's rows, then the buyer's last-read upsert. */
  function FirstMessageStates(states: map<StateKey, ReadState>, chatId: int, buyerId: int, sellerId: int,
                              mid: int, now: Time): map<StateKey, ReadState>
  {
    var kb := (chatId, buyerId);
    var s1 := InsertIgnoreState(InsertIgnoreState(states, kb, now), (chatId, sellerId), now);
    s1[kb := UpsertLastRead(Some(s1[kb]), Some(mid), now)]
  }

  /** Only the buyer's row changes when it already existed; the seller's row
      is created empty when missing and otherwise left alone; the buyer's
      last-read value becomes at least the new message. */
  lemma FirstMessageStatesSpec(states: map<StateKey, ReadState>, chatId: int, buyerId: int, sellerId: int,
                               mid: int, now: Time)
    ensures var r := FirstMessageStates(states, chatId, buyerId, sellerId, mid, now);
            var kb := (chatId, buyerId);
            var ks := (chatId, sellerId);
            && kb in r && ks in r
            && r[kb].lastRead == Some(Max(if kb in states then IfNull0(states[kb].lastRead) else 0, mid))
            && (buyerId != sellerId ==> r[ks] == (if ks in states then states[ks] else ReadState(None, None, None, now)))
            && (forall k :: k in states && k != kb ==> k in r && r[k] == states[k])
            && (forall k :: k in r ==> k in states || k == kb || k == ks)
            && ReadStatesGrow(states, r)
  {
  }

  /** After a message `mid` is sent, a user whose last-read value is at
      least `mid` has nothing unread in the room. */
  lemma NothingUnreadAfterSend(msgs: seq<Message>, next: int, m: Message, userId: int, lastRead: Option<int>)
    requires MessageIdsIncreasing(msgs, next) && m.id == next
    requires lastRead.Some? && lastRead.value >= next
    ensures UnreadCount(msgs + [m], m.chatId, userId, lastRead) == 0
  {
    MessageIdsInRange(msgs, next);
    var r := msgs + [m];
    assert forall i :: 0 <= i < |r| ==> r[i].id <= next by {
      forall i | 0 <= i < |r| ensures r[i].id <= next {
        if i < |msgs| { assert r[i] == msgs[i]; }
      }
    }
    NothingUnreadPastLatest(r, m.chatId, userId, lastRead);
  }

  // ---------------------------------------------------------------------
  // The writes of the handlers, on the tables as values
  // ---------------------------------------------------------------------

  /** The value `markReadToLatest` writes: the newest message id of the
      room, or NULL when the room has no message (`latest > 0 ? latest :
      null`). */
  function LatestOrNull(msgs: seq<Message>, chatId: int): (r: Option<int>)
  {
    var latest := LatestMessageId(msgs, chatId);
    if latest > 0 then Some(latest) else None
  }

  /** `markReadToLatest`: the last-read upsert of (room, user) with the
      newest message id of the room. */
  function MarkRead(t: Tables, chatId: int, userId: int, now: Time): Tables
  {
    var k := (chatId, userId);
    t.(states := t.states[k := UpsertLastRead(if k in t.states then Some(t.states[k]) else None,
                                              LatestOrNull(t.messages, chatId), now)])
  }

  /** Marking a room read touches only the reader's row, never moves a
      last-read value back, and leaves nothing of the room unread for the
      reader. */
  lemma MarkReadSpec(t: Tables, chatId: int, userId: int, now: Time)
    requires Consistent(t)
    ensures var r := MarkRead(t, chatId, userId, now);
            var k := (chatId, userId);
            && Consistent(r)
            && r.rooms == t.rooms && r.messages == t.messages
            && k in r.states
            && (forall k' :: k' in t.states && k' != k ==> k' in r.states && r.states[k'] == t.states[k'])
            && ReadStatesGrow(t.states, r.states)
            && UnreadCount(t.messages, chatId, userId, r.states[k].lastRead) == 0
  {
    var k := (chatId, userId);
    var prev := if k in t.states then Some(t.states[k]) else None;
    var v := LatestOrNull(t.messages, chatId);
    var row := UpsertLastRead(prev, v, now);
    UpsertLastReadSpec(prev, v, now);
    UpsertGrows(t.states, k, v, now);
    MessageIdsInRange(t.messages, t.nextMessageId);
    if v.Some? {
      assert IfNull0(row.lastRead) >= v.value;
    }
    NothingUnreadPastLatest(t.messages, chatId, userId, row.lastRead);
  }

  /** The transaction of `sendMessage` when every statement succeeds: the
      message insert with the next id, the room's last-message pointer and
      the sender's last-read upsert. */
  function Send(t: Tables, chatId: int, userId: int, text: string, now: Time): Tables
  {
    var mid := t.nextMessageId;
    var k := (chatId, userId);
    t.(rooms := SetLastMessage(t.rooms, chatId, mid, now),
       messages := t.messages + [Message(mid, chatId, userId, text, now)],
       states := t.states[k := UpsertLastRead(if k in t.states then Some(t.states[k]) else None, Some(mid), now)],
       nextMessageId := mid + 1)
  }

  /** Sending into an existing room appends exactly one message, with an id
      above every earlier one, points the room at it, keeps the tables
      consistent, and moves the sender's last-read value to the larger of
      its old value and the new id, so nothing in the room is unread for the
      sender; no other read state changes and no last-read value moves
      back. */
  lemma SendSpec(t: Tables, chatId: int, userId: int, text: string, now: Time)
    requires Consistent(t) && HasRoom(t.rooms, chatId)
    ensures var r := Send(t, chatId, userId, text, now);
            var mid := t.nextMessageId;
            var k := (chatId, userId);
            && Consistent(r)
            && (forall i :: 0 <= i < |t.messages| ==> t.messages[i].id < mid)
            && r.messages == t.messages + [Message(mid, chatId, userId, text, now)]
            && ChatIds(r.rooms) == ChatIds(t.rooms)
            && |r.rooms| == |t.rooms|
            && (forall i :: 0 <= i < |t.rooms| ==>
                  r.rooms[i] == if t.rooms[i].chatId == chatId
                                then t.rooms[i].(lastMessageId := Some(mid), lastMessageAt := Some(now))
                                else t.rooms[i])
            && k in r.states
            && r.states[k].lastRead == Some(Max(if k in t.states then IfNull0(t.states[k].lastRead) else 0, mid))
            && UnreadCount(r.messages, chatId, userId, r.states[k].lastRead) == 0
            && (forall k' :: k' in t.states && k' != k ==> k' in r.states && r.states[k'] == t.states[k'])
            && ReadStatesGrow(t.states, r.states)
  {
    SendKeepsTables(t, chatId, userId, text, now);
    SendWrites(t, chatId, userId, text, now);
  }

  /** The room pointer and the sender's last-read value that `Send` writes. */
  lemma SendWrites(t: Tables, chatId: int, userId: int, text: string, now: Time)
    requires t.nextMessageId >= 1
    ensures var r := Send(t, chatId, userId, text, now);
            var mid := t.nextMessageId;
            var k := (chatId, userId);
            && |r.rooms| == |t.rooms|
            && (forall i :: 0 <= i < |t.rooms| ==>
                  r.rooms[i] == if t.rooms[i].chatId == chatId
                                then t.rooms[i].(lastMessageId := Some(mid), lastMessageAt := Some(now))
                                else t.rooms[i])
            && k in r.states
            && r.states[k].lastRead == Some(Max(if k in t.states then IfNull0(t.states[k].lastRead) else 0, mid))
  {
    var mid := t.nextMessageId;
    var k := (chatId, userId);
    SetLastMessageSpec(t.rooms, chatId, mid, now);
    UpsertLastReadSpec(if k in t.states then Some(t.states[k]) else None, Some(mid), now);
  }

  /** What `Send` keeps: the invariants, the other read states, and no
      last-read value moving back. */
  lemma SendKeepsTables(t: Tables, chatId: int, userId: int, text: string, now: Time)
    requires Consistent(t) && HasRoom(t.rooms, chatId)
    ensures var r := Send(t, chatId, userId, text, now);
            var mid := t.nextMessageId;
            var k := (chatId, userId);
            && Consistent(r)
            && (forall i :: 0 <= i < |t.messages| ==> t.messages[i].id < mid)
            && r.messages == t.messages + [Message(mid, chatId, userId, text, now)]
            && ChatIds(r.rooms) == ChatIds(t.rooms)
            && k in r.states
            && UnreadCount(r.messages, chatId, userId, r.states[k].lastRead) == 0
            && (forall k' :: k' in t.states && k' != k ==> k' in r.states && r.states[k'] == t.states[k'])
            && ReadStatesGrow(t.states, r.states)
  {
    var r := Send(t, chatId, userId, text, now);
    var mid := t.nextMessageId;
    var m := Message(mid, chatId, userId, text, now);
    var k := (chatId, userId);
    var prev := if k in t.states then Some(t.states[k]) else None;
    SetLastMessageKeepsKeys(t.rooms, chatId, mid, now, t.nextChatId);
    MessageIdsInRange(t.messages, mid);
    NewMessage(t.messages, mid, m, t.rooms, r.rooms);
    assert Consistent(r);
    UpsertLastReadSpec(prev, Some(mid), now);
    UpsertGrows(t.states, k, Some(mid), now);
    NothingUnreadAfterSend(t.messages, mid, m, userId, r.states[k].lastRead);
  }

  /** The transaction of `sendFirstMessage` when every statement succeeds:
      resolves or creates the room of (goods, buyer, seller), creates the
      two read-state rows where missing, inserts the buyer's message, points
      the room at it and upserts the buyer's read state.  Returns the tables
      and the room's id. */
  function SendFirst(t: Tables, goodsId: int, buyerId: int, sellerId: int, text: string, now: Time): (Tables, int)
  {
    var (rooms1, c) := UpsertRoom(t.rooms, t.nextChatId, goodsId, buyerId, sellerId, now);
    var mid := t.nextMessageId;
    (Tables(SetLastMessage(rooms1, c, mid, now),
            t.messages + [Message(mid, c, buyerId, text, now)],
            FirstMessageStates(t.states, c, buyerId, sellerId, mid, now),
            if RoomFor(t.rooms, goodsId, buyerId, sellerId).None? then t.nextChatId + 1 else t.nextChatId,
            mid + 1),
     c)
  }

  /** The first message lands in the triple's room, which is the room the
      triple already had or exactly one new room with the next id, and
      exactly one message is appended. */
  lemma SendFirstRooms(t: Tables, goodsId: int, buyerId: int, sellerId: int, text: string, now: Time)
    requires Consistent(t)
    ensures var (r, c) := SendFirst(t, goodsId, buyerId, sellerId, text, now);
            var mid := t.nextMessageId;
            var existing := RoomFor(t.rooms, goodsId, buyerId, sellerId);
            && RoomFor(r.rooms, goodsId, buyerId, sellerId) == Some(c)
            && (existing.Some? ==>
                  c == existing.value && r.nextChatId == t.nextChatId &&
                  r.rooms == SetLastMessage(t.rooms, c, mid, now))
            && (existing.None? ==>
                  c == t.nextChatId && r.nextChatId == t.nextChatId + 1 &&
                  r.rooms == t.rooms + [Room(c, goodsId, buyerId, sellerId, Some(mid), Some(now), now)])
            && r.messages == t.messages + [Message(mid, c, buyerId, text, now)]
  {
    UpsertThenPoint(t.rooms, t.nextChatId, goodsId, buyerId, sellerId, t.nextMessageId, now);
  }

  /** The transaction of `sendFirstMessage` keeps the tables consistent. */
  lemma SendFirstConsistent(t: Tables, goodsId: int, buyerId: int, sellerId: int, text: string, now: Time)
    requires Consistent(t)
    ensures Consistent(SendFirst(t, goodsId, buyerId, sellerId, text, now).0)
  {
    var mid := t.nextMessageId;
    var (rooms1, c) := UpsertRoom(t.rooms, t.nextChatId, goodsId, buyerId, sellerId, now);
    var rooms2 := SetLastMessage(rooms1, c, mid, now);
    var msgs2 := t.messages + [Message(mid, c, buyerId, text, now)];
    var nextChat := if RoomFor(t.rooms, goodsId, buyerId, sellerId).None? then t.nextChatId + 1 else t.nextChatId;
    UpsertThenPoint(t.rooms, t.nextChatId, goodsId, buyerId, sellerId, mid, now);
    NewMessage(t.messages, mid, Message(mid, c, buyerId, text, now), t.rooms, rooms2);
    assert Consistent(Tables(rooms2, msgs2, t.states, nextChat, mid + 1));
  }

  /** After the first message, which is the buyer's, the buyer has a
      read-state row whose value is the larger of its old value and the new
      message, nothing in the room is unread for the buyer, no other
      existing row changed and no last-read value moved back. */
  lemma SendFirstStates(t: Tables, goodsId: int, buyerId: int, sellerId: int, text: string, now: Time)
    requires Consistent(t)
    ensures var (r, c) := SendFirst(t, goodsId, buyerId, sellerId, text, now);
            var kb := (c, buyerId);
            && r.messages[|t.messages|].userId == buyerId
            && kb in r.states
            && r.states[kb].lastRead == Some(Max(if kb in t.states then IfNull0(t.states[kb].lastRead) else 0,
                                                 t.nextMessageId))
            && (forall k :: k in t.states && k != kb ==> k in r.states && r.states[k] == t.states[k])
            && UnreadCount(r.messages, c, buyerId, r.states[(c, buyerId)].lastRead) == 0
            && ReadStatesGrow(t.states, r.states)
  {
    var (r, c) := SendFirst(t, goodsId, buyerId, sellerId, text, now);
    var mid := t.nextMessageId;
    FirstMessageStatesSpec(t.states, c, buyerId, sellerId, mid, now);
    NothingUnreadAfterSend(t.messages, mid, Message(mid, c, buyerId, text, now), buyerId, r.states[(c, buyerId)].lastRead);
  }

  // ---------------------------------------------------------------------
  // The tables and the handlers
  // ---------------------------------------------------------------------

  class ChatDb {
    /** `dam_goods_posts`: goods_id -> user_id of the seller (read only here). */
    var goodsSeller: map<int, int>
    /** The user_ids of `damteul_users` (read only here). */
    var users: set<int>
    /** `dam_chat_rooms`, `dam_chat_messages` and `dam_chat_room_user_state`. */
    var tables: Tables

    ghost predicate Valid()
      reads this
    {
      Consistent(tables)
    }

    constructor (goodsSeller: map<int, int>, users: set<int>)
      ensures Valid()
      ensures this.goodsSeller == goodsSeller && this.users == users
      ensures tables == Tables([], [], map[], 1, 1)
    {
      this.goodsSeller := goodsSeller;
      this.users := users;
      tables := Tables([], [], map[], 1, 1);
    }

    /** `getSellerIdByGoodsId`: the seller, or None when the goods is
        unknown or its user_id is 0 (both fail `!seller_id`). */
    function SellerOf(goodsId: int): (r: Option<int>)
      reads this
      ensures r.Some? <==> goodsId in goodsSeller && goodsSeller[goodsId] != 0
      ensures r.Some? ==> r.value == goodsSeller[goodsId]
    {
      if goodsId in goodsSeller && goodsSeller[goodsId] != 0 then Some(goodsSeller[goodsId]) else None
    }

    /** `getLatestMessageId`: 0 for a room without messages, otherwise the
        largest message id in the room. */
    method GetLatestMessageId(chatId: int) returns (latest: int)
      requires Valid()
      ensures latest >= 0
      ensures latest == 0 <==> forall i :: 0 <= i < |tables.messages| ==> tables.messages[i].chatId != chatId
      ensures latest != 0 ==> exists i :: 0 <= i < |tables.messages| && tables.messages[i].chatId == chatId &&
                                          tables.messages[i].id == latest
      ensures forall i :: 0 <= i < |tables.messages| && tables.messages[i].chatId == chatId ==>
                tables.messages[i].id <= latest
    {
      MessageIdsInRange(tables.messages, tables.nextMessageId);
      latest := LatestMessageId(tables.messages, chatId);
    }

    /** `markReadToLatest`: moves the user's last-read value up to the newest
        message of the room, creating the row if needed; with no messages the
        value is left as it was (NULL for a new row).  See `MarkReadSpec`. */
    method MarkReadToLatest(chatId: int, userId: int, now: Time) returns (newLastRead: Option<int>)
      requires Valid()
      modifies this`tables
      ensures Valid()
      ensures newLastRead == LatestOrNull(old(tables).messages, chatId)
      ensures tables == MarkRead(old(tables), chatId, userId, now)
    {
      var latest := GetLatestMessageId(chatId);
      newLastRead := if latest > 0 then Some(latest) else None;
      MarkReadSpec(tables, chatId, userId, now);
      tables := MarkRead(tables, chatId, userId, now);
    }

    /** GET /api/chat/room: the room of (goods, buyer, seller of the goods),
        if there is one; never creates a room.  An id of 0 stands for a
        missing one. */
    method GetRoomByGoodsAndBuyer(goodsId: int, buyerId: int, fault: Fault)
      returns (code: int, chatId: Option<int>, sellerId: Option<int>)
      requires Valid()
      ensures goodsId == 0 || buyerId == 0 ==> code == BAD_REQUEST
      ensures code == OK <==> goodsId != 0 && buyerId != 0 && fault == NoFault && SellerOf(goodsId).Some?
      ensures code == NOT_FOUND <==> goodsId != 0 && buyerId != 0 && !FailsAt(fault, 0) &&
                                     SellerOf(goodsId).None?
      ensures goodsId != 0 && buyerId != 0 && code != OK && code != NOT_FOUND ==> code == SERVER_ERROR
      ensures code == OK ==> sellerId == SellerOf(goodsId) &&
                             chatId == RoomFor(tables.rooms, goodsId, buyerId, sellerId.value)
      ensures code == OK && chatId.Some? ==>
                exists i :: RoomAt(tables.rooms, i, chatId.value, goodsId, buyerId, sellerId.value)
      ensures code == OK && chatId.None? ==>
                forall i :: 0 <= i < |tables.rooms| ==>
                  (tables.rooms[i].goodsId, tables.rooms[i].buyerId, tables.rooms[i].sellerId) !=
                  (goodsId, buyerId, sellerId.value)
    {
      if goodsId == 0 || buyerId == 0 { return BAD_REQUEST, None, None; }
      if FailsAt(fault, 0) { return SERVER_ERROR, None, None; }
      var seller := SellerOf(goodsId);
      if seller.None? { return NOT_FOUND, None, None; }
      if fault != NoFault { return SERVER_ERROR, None, None; }
      RoomForSpec(tables.rooms, goodsId, buyerId, seller.value);
      return OK, RoomFor(tables.rooms, goodsId, buyerId, seller.value), seller;
    }

    /** GET /api/chat/messages: the room's messages in id order, after which
        the reader is marked as having read up to the newest one. */
    method GetMessagesByChatId(chatId: int, userId: int, now: Time, fault: Fault)
      returns (code: int, list: seq<Message>, lastRead: Option<int>)
      requires Valid()
      modifies this`tables
      ensures Valid()
      ensures chatId == 0 || userId == 0 ==> code == BAD_REQUEST
      ensures code == OK <==> chatId != 0 && userId != 0 && fault == NoFault
      ensures chatId != 0 && userId != 0 && code != OK ==> code == SERVER_ERROR
      ensures code != OK ==> tables == old(tables)
      ensures code == OK ==> list == MessagesOf(old(tables).messages, chatId, users)
      ensures code == OK ==> forall i, j :: 0 <= i < j < |list| ==> list[i].id < list[j].id
      ensures code == OK ==> lastRead == LatestOrNull(old(tables).messages, chatId)
      ensures code == OK ==> tables == MarkRead(old(tables), chatId, userId, now)
    {
      list, lastRead := [], None;
      if chatId == 0 || userId == 0 { return BAD_REQUEST, [], None; }
      if fault != NoFault { return SERVER_ERROR, [], None; }
      list := MessagesOf(tables.messages, chatId, users);
      assert forall i, j :: 0 <= i < j < |list| ==> list[i].id < list[j].id by {
        MessagesOfIncreasing(tables.messages, chatId, users, tables.nextMessageId);
        MessageIdsIncreasingPairwise(list, tables.nextMessageId);
      }
      lastRead := MarkReadToLatest(chatId, userId, now);
      code := OK;
    }

    /** POST /api/chat/mark-read. */
    method MarkChatRead(chatId: int, userId: int, now: Time, fault: Fault)
      returns (code: int, lastRead: Option<int>)
      requires Valid()
      modifies this`tables
      ensures Valid()
      ensures chatId == 0 || userId == 0 ==> code == BAD_REQUEST
      ensures code == OK <==> chatId != 0 && userId != 0 && fault == NoFault
      ensures chatId != 0 && userId != 0 && code != OK ==> code == SERVER_ERROR
      ensures code != OK ==> tables == old(tables)
      ensures code == OK ==> lastRead == LatestOrNull(old(tables).messages, chatId)
      ensures code == OK ==> tables == MarkRead(old(tables), chatId, userId, now)
    {
      lastRead := None;
      if chatId == 0 || userId == 0 { return BAD_REQUEST, None; }
      if fault != NoFault { return SERVER_ERROR, None; }
      lastRead := MarkReadToLatest(chatId, userId, now);
      code := OK;
    }

    /** GET /api/chat/rooms. */
    method GetMyChatRooms(userId: int, fault: Fault) returns (code: int, list: seq<RoomRow>)
      requires Valid()
      ensures userId == 0 ==> code == BAD_REQUEST
      ensures code == OK <==> userId != 0 && fault == NoFault
      ensures userId != 0 && code != OK ==> code == SERVER_ERROR
      ensures code == OK ==> list == MyRooms(tables.rooms, userId, users, tables.messages, tables.states)
      ensures code == OK ==> Ordered(list)
      ensures code == OK ==>
                forall x :: x in list <==> ListedRow(x, tables.rooms, userId, users, tables.messages, tables.states)
    {
      if userId == 0 { return BAD_REQUEST, []; }
      if fault != NoFault { return SERVER_ERROR, []; }
      list := MyRooms(tables.rooms, userId, users, tables.messages, tables.states);
      MyRoomsSpec(tables.rooms, userId, users, tables.messages, tables.states);
      code := OK;
    }

    /** POST /api/chat/send: one transaction that inserts the message, points
        the room at it and upserts the sender's read state (see `SendSpec`).
        Any failing statement, including the INSERT of a message into a room
        that does not exist (the foreign key), rolls all of it back. */
    method SendMessage(chatId: int, userId: int, content: Option<string>, now: Time, fault: Fault)
      returns (code: int, messageId: int)
      requires Valid()
      modifies this`tables
      ensures Valid()
      ensures chatId == 0 || userId == 0 || MissingOrBlank(content) ==> code == BAD_REQUEST
      ensures code == OK <==> chatId != 0 && userId != 0 && !MissingOrBlank(content) &&
                              fault == NoFault && HasRoom(old(tables).rooms, chatId)
      ensures chatId != 0 && userId != 0 && !MissingOrBlank(content) && code != OK ==> code == SERVER_ERROR
      ensures code != OK ==> tables == old(tables)
      ensures code == OK ==>
                && messageId == old(tables).nextMessageId
                && tables == Send(old(tables), chatId, userId, Trim(content.value), now)
    {
      messageId := 0;
      if chatId == 0 || userId == 0 || MissingOrBlank(content) { return BAD_REQUEST, 0; }
      if fault != NoFault || !HasRoom(tables.rooms, chatId) { return SERVER_ERROR, 0; }
      messageId := tables.nextMessageId;
      SendSpec(tables, chatId, userId, Trim(content.value), now);
      tables := Send(tables, chatId, userId, Trim(content.value), now);
      code := OK;
    }

    /** POST /api/chat/send-first: looks up the seller of the goods
        (statement 0, outside the transaction), then runs the transaction
        `SendFirst` (see `SendFirstRooms`, `SendFirstConsistent` and
        `SendFirstStates`); a failing statement of the
        transaction rolls all of it back. */
    method SendFirstMessage(goodsId: int, buyerId: int, content: Option<string>, now: Time, fault: Fault)
      returns (code: int, chatId: int, messageId: int, sellerId: int)
      requires Valid()
      modifies this`tables
      ensures Valid()
      ensures goodsId == 0 || buyerId == 0 || MissingOrBlank(content) ==> code == BAD_REQUEST
      ensures code == NOT_FOUND <==> goodsId != 0 && buyerId != 0 && !MissingOrBlank(content) &&
                                     !FailsAt(fault, 0) && SellerOf(goodsId).None?
      ensures code == OK <==> goodsId != 0 && buyerId != 0 && !MissingOrBlank(content) &&
                              fault == NoFault && SellerOf(goodsId).Some?
      ensures goodsId != 0 && buyerId != 0 && !MissingOrBlank(content) && code != OK && code != NOT_FOUND ==>
                code == SERVER_ERROR
      ensures code != OK ==> tables == old(tables)
      ensures code == OK ==>
                && sellerId == goodsSeller[goodsId]
                && messageId == old(tables).nextMessageId
                && (tables, chatId) == SendFirst(old(tables), goodsId, buyerId, sellerId, Trim(content.value), now)
    {
      chatId, messageId, sellerId := 0, 0, 0;
      if goodsId == 0 || buyerId == 0 || MissingOrBlank(content) { return BAD_REQUEST, 0, 0, 0; }
      if FailsAt(fault, 0) { return SERVER_ERROR, 0, 0, 0; }
      var seller := SellerOf(goodsId);
      if seller.None? { return NOT_FOUND, 0, 0, 0; }
      if fault != NoFault { return SERVER_ERROR, 0, 0, 0; }
      sellerId := seller.value;
      messageId := tables.nextMessageId;
      SendFirstConsistent(tables, goodsId, buyerId, sellerId, Trim(content.value), now);
      var (t, c) := SendFirst(tables, goodsId, buyerId, sellerId, Trim(content.value), now);
      tables, chatId := t, c;
      code := OK;
    }
  }
}
