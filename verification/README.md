# damteul backend — a Dafny model of its handlers

damteul is a second-hand trading and community service. Its backend is an
Express application over MySQL. Almost all of its behaviour lives in the SQL
each handler runs: `INSERT … ON DUPLICATE KEY UPDATE`, `INSERT IGNORE`,
`GREATEST`, `IFNULL`, `CASE`, and `WHERE … AND is_deleted = 0`.

This project models those handlers as operations on in-memory tables.
- Each table is a `map` keyed by its primary key, or a `seq` in insertion
  order.
- AUTO_INCREMENT counters are explicit fields.
- `NOW()` is a parameter.
- A handler is a method on a class that owns its tables. It answers with the
  HTTP status the source sends, and its `ensures` state the new table
  contents.
- A database error is a `Fault` parameter. `FailAt(k)` makes the k-th
  statement of the handler fail.
- A transaction commits by assigning its tables once, or changes nothing.

The modules follow the controllers:

| module | controller |
|---|---|
| `Common` | the JavaScript string operations the handlers use: `trim`, `\s`, `toLowerCase` on ASCII, `startsWith`, `includes`, string `<` |
| `Schema` | the user row and the soft-delete discipline |
| `Sorting` | the insertion sort behind the `ORDER BY` of the room list and the address search |
| `Chat` | rooms, messages, per-user read state, the two send transactions, the room list |
| `Admin` | report moderation with the strike counter, soft deletes, dashboard sum, status labels |
| `App` | `isDateKey`, the KST→UTC conversion, `normalizeDatesDeep`, the upload file filter, folder allow-list and URL |
| `NoticeEvent` | date padding, the scheduled/running/ended classification, notice and event create/update/delete |
| `Community` | likes, tag-to-image grouping on create and detail, the board list |
| `ImageList` | the image-list normalisation shared by goods and nanum `create` |
| `Goods`, `Nanum` | posts, images, like toggle, giveaway applications |
| `UserAccount`, `Profile` | register and login checks, nickname uniqueness |
| `AddressSearch` | `parseInt`, the limit clamp, `LIKE` patterns, the ranking |

Three kinds of value get special treatment:
- A request field that may be missing is an `Option`.
- An id that the handler passes through `Number(...)` is an `int`. 0 stands
  for a missing or non-numeric id, since both are falsy. Ids that a handler
  takes from the body without `Number(...)` are modelled as numbers only
  (see "Left out").
- `created_at DESC` on an AUTO_INCREMENT table is modelled as descending key
  order.

One behaviour is a surprise rather than a defect, so it is not a finding.
`register` stores the name as sent, while `login` compares the stored name
with the trimmed input. A user who registered with a padded name can
therefore never log in. `UserAccount.PaddedNameNeverMatches` proves
this.

## Model

| member | source | states |
|---|---|---|
| Schema.LiveIds | src/controllers/goods.controllers.js:107 | a listed row is exactly a row with `is_deleted = 0` |
| Schema.KeysDescBelow | src/controllers/goods.controllers.js:108 | the keys of the set below the counter, each once, strictly descending |
| Schema.GuardedSoftDelete | src/controllers/admin.controllers.js:319-340 | only a live row that meets the extra condition is flagged, with answer 200 iff it was; otherwise 404 and the table is unchanged; no data column or other row changes |
| Schema.SecondDeleteIsNotFound | src/controllers/admin.controllers.js:309-348 | a guarded delete repeated after success answers 404 and changes nothing; the row leaves the live set |
| Schema.UnguardedSoftDelete | src/controllers/goods.controllers.js:216-232 | the row is flagged even when already deleted; the answer is 404 iff no row has the key |
| Schema.UnguardedRepeatSucceeds | src/controllers/goods.controllers.js:218-230 | repeating the unguarded delete of an existing row answers 200 again |
| Chat.UniqueTriplesPairwise | src/controllers/chat.controllers.js:211-222 | under the table invariant no two rooms share (goods, buyer, seller) |
| Chat.RoomForSpec | src/controllers/chat.controllers.js:111-127 | the room lookup finds nothing iff no room has the triple, and otherwise the id of the room with that triple |
| Chat.UpsertRoomSpec | src/controllers/chat.controllers.js:211-222 | the upsert reuses the triple's room or appends exactly one room with the next id |
| Chat.UpsertRoomIdempotent | src/controllers/chat.controllers.js:211-222 | resolving the same triple twice gives the same room and creates nothing the second time |
| Chat.SetLastMessageSpec | src/controllers/chat.controllers.js:254-262 | the pointer update rewrites the two pointer columns of that room only |
| Chat.LatestMessageId | src/controllers/chat.controllers.js:48-58 | 0 for a room without messages, else the largest id of a message in the room |
| Chat.UpsertLastReadSpec | src/controllers/chat.controllers.js:69-78 | a new row takes the value; an existing row keeps its value on NULL and otherwise takes the larger |
| Chat.UpsertGrows | src/controllers/chat.controllers.js:63-85 | no last-read value ever goes down |
| Chat.NothingUnreadPastLatest | src/controllers/chat.controllers.js:410-416 | nothing is unread once last-read reaches every message id of the room |
| Chat.OwnMessagesNotUnread | src/controllers/chat.controllers.js:412 | a user's own messages never count as unread for that user |
| Chat.OtherUser | src/controllers/chat.controllers.js:404-406 | the seller for the buyer, the buyer otherwise |
| Chat.ListedRows | src/controllers/chat.controllers.js:418-429 | every row is that of a room the user takes part in with both participants existing and no `left_at`, and every such room has its row |
| Sorting.Sort | src/controllers/chat.controllers.js:430 | the sorted rows are a permutation of the rows given; one sort serves both the room list and the address search |
| Sorting.SortOrdered | src/controllers/chat.controllers.js:430 | under a strict weak order, the sort leaves no row after one it must come before |
| Chat.BeforeIsStrictWeakOrder | src/controllers/chat.controllers.js:430 | `last_message_at DESC, chat_id DESC` with NULL last is asymmetric and its "not before" is transitive |
| Chat.MyRoomsSpec | src/controllers/chat.controllers.js:387-440 | the room list holds exactly the listed rooms, each with its other participant and unread count, in order |
| Chat.MessagesOf | src/controllers/chat.controllers.js:152-161 | a message is listed iff it belongs to the room and its author is a user (the inner join) |
| Chat.MessagesOfIncreasing | src/controllers/chat.controllers.js:158 | the listing is in increasing message id, as `ORDER BY message_id ASC` asks |
| Chat.FirstMessageStatesSpec | src/controllers/chat.controllers.js:225-276 | the seller's row is created empty only when missing; only the buyer's row changes, to `max(old or 0, message id)`; no value goes down |
| Chat.NothingUnreadAfterSend | src/controllers/chat.controllers.js:349-360 | after a send the sender has nothing unread in the room |
| Chat.MarkReadSpec | src/controllers/chat.controllers.js:63-85 | marking read touches only the reader's row, never lowers it, and leaves nothing of the room unread for the reader |
| Chat.SendSpec | src/controllers/chat.controllers.js:322-360 | one message with the given text and an id above all others; the room points at it and no other room changes; the sender's last-read is `max(old or 0, id)`; the tables stay consistent |
| Chat.SendFirstRooms | src/controllers/chat.controllers.js:211-243 | the first message lands in the triple's existing room or in exactly one new room |
| Chat.SendFirstConsistent | src/controllers/chat.controllers.js:184-298 | the first-message transaction keeps the tables consistent |
| Chat.SendFirstStates | src/controllers/chat.controllers.js:225-276 | the message is by the buyer; the buyer's last-read becomes `max(old or 0, id)`; no other existing read-state row changes; the buyer has nothing unread |
| Chat.ChatDb.SellerOf | src/controllers/chat.controllers.js:32-43 | the seller iff the goods exists with a non-zero user id |
| Chat.ChatDb.GetLatestMessageId | src/controllers/chat.controllers.js:48-58 | 0 iff the room has no messages, else a message id of the room that bounds all others |
| Chat.ChatDb.MarkReadToLatest | src/controllers/chat.controllers.js:63-85 | the new state is the mark-read of the old state; the value returned is the latest id or NULL |
| Chat.ChatDb.GetRoomByGoodsAndBuyer | src/controllers/chat.controllers.js:91-132 | 400 / 404 / 500 / 200 by condition; never creates a room; a null chat id iff no room has the triple |
| Chat.ChatDb.GetMessagesByChatId | src/controllers/chat.controllers.js:138-177 | the room's messages in increasing id, then the reader is marked read |
| Chat.ChatDb.MarkChatRead | src/controllers/chat.controllers.js:447-462 | 400 without ids; otherwise the mark-read, or no change on error |
| Chat.ChatDb.GetMyChatRooms | src/controllers/chat.controllers.js:387-440 | exactly the listed rooms, ordered |
| Chat.ChatDb.SendMessage | src/controllers/chat.controllers.js:305-381 | 400 for a missing id or blank content; 200 iff the transaction succeeds, with the send applied; otherwise no table changes |
| Chat.ChatDb.SendFirstMessage | src/controllers/chat.controllers.js:184-298 | 400 on validation; 404 iff the goods has no seller; 200 with the transaction applied; otherwise rolled back |
| Admin.UpdateReport | src/controllers/admin.controllers.js:707-715 | `processing_result` takes the value; `status` is 1 after it iff the value is non-null or it was 1; a NULL value keeps `status`; the writer is kept |
| Admin.ShouldIncrementExactly | src/controllers/admin.controllers.js:737 | outcomes 0, 2 and NULL, and any outcome given to a report that already has a result, never increment the strike count |
| Admin.RepeatedOutcomeDoesNotIncrement | src/controllers/admin.controllers.js:737 | once a result is recorded no outcome increments again, and the same outcome given twice leaves the report as once |
| Admin.ResetThenOneIncrements | src/controllers/admin.controllers.js:737 | a result reset to NULL and then set to 1 increments again |
| Admin.IncrementReported | src/controllers/admin.controllers.js:761-765 | one user's count becomes `COALESCE(count, 0) + 1`; nothing else changes |
| Admin.PostsTotal | src/controllers/admin.controllers.js:164-185 | 0 when every count is missing; the plain sum when all three are present |
| Admin.StatusLabelSpec | src/controllers/admin.controllers.js:273-278 | the fallback label iff the status is not 0, 1 or 2; two statuses with the same non-fallback label are equal |
| Admin.ResultLabelAfterUpdate | src/controllers/admin.controllers.js:602-607 | after the update the report reads "in progress" iff the outcome given is not 0, 1 or 2 |
| Admin.AdminDb.GetUserDetail | src/controllers/admin.controllers.js:257-306 | 400 without an id, 500 when the query fails, 404 iff no such user, else the row's key, nickname, level code and reported count with its status label |
| Admin.AdminDb.UpdateReportsDetail | src/controllers/admin.controllers.js:647-795 | 400 without an id; 404 iff the report is missing or a due strike finds no user; 200 with the report update plus the strike iff due, the flag telling whether it was applied; any other outcome changes nothing |
| Admin.AdminDb.UserDelete | src/controllers/admin.controllers.js:309-348 | the guarded soft delete of the user |
| Admin.AdminDb.PostDelete | src/controllers/admin.controllers.js:485-532 | the guarded soft delete in the goods table for "goods", in the nanum table otherwise |
| Admin.AdminDb.ReportDelete | src/controllers/admin.controllers.js:798-837 | the guarded soft delete of the report |
| Admin.AdminDb.TradeDelete | src/controllers/admin.controllers.js:939-978 | the guarded soft delete of the trade |
| Admin.AdminDb.CommunityDelete | src/controllers/admin.controllers.js:1081-1120 | the guarded soft delete of the community post |
| App.IsDateKeyCollapses | src/app.js:116-120 | `isDateKey` holds iff the lower-cased key ends with "at" or is "datetime" |
| App.KstToUtcInstant | src/app.js:122-128 | a KST wall-clock time read as UTC denotes the instant nine hours earlier |
| App.KstRoundTrip | src/app.js:122-128 | shifting back nine hours and forward again returns the same reading |
| App.NumberOfPad | src/app.js:127 | reading back a zero-padded number gives the number |
| App.FormatIsoReadsBack | src/app.js:127 | the ISO text produced matches the DATETIME pattern and reads back as its fields |
| App.ToIsoFromKst | src/app.js:122-129 | input that does not start with the DATETIME pattern is returned unchanged; a converted value is a 24-character ISO string |
| App.ToIsoShiftsNineHours | src/app.js:122-129 | a converted value denotes the same wall-clock time minus nine hours, read back from its own text |
| App.NormalizeShape | src/app.js:131-159 | null and primitives unchanged, arrays keep their length, objects keep their keys in order; a `Date` becomes its `toISOString` text and a string under a date key its `toIsoFromKst` conversion |
| App.DateFreeUnchanged | src/app.js:147-153 | a payload with no date-keyed string is returned unchanged |
| App.ExtName | src/app.js:40 | `path.extname`: from the last dot of the last segment, empty when there is none |
| App.AcceptedNameEndsWithAllowedExt | src/app.js:54-62 | an accepted file's lower-cased extension is one of the seven allowed and ends its lower-cased name; its mimetype is present |
| App.StemAndExtAccepted | src/app.js:24-25 | a stem plus an allowed extension in any letter case, with an `image/` mimetype, is accepted; without a mimetype it never is |
| App.UploadUrlRoundTrip | src/app.js:95 | the upload URL names its folder and file and both can be read back from it |
| App.UploadSingle | src/app.js:83-98 | 400 iff the folder is outside `ALLOWED` or no file came; 200 iff one accepted file came, answered with its name and a URL naming the folder and the file |
| App.UploadMulti | src/app.js:100-113 | 400 iff the folder is outside `ALLOWED` or no file came; 200 iff 1 to 11 accepted files came, with one entry per file naming the folder and that file |
| App.StoredList | src/app.js:107-110 | one entry per file, in order, with that file's name and URL |
| NoticeEvent.ToStartDateTime | src/controllers/admin.noticeEvent.controllers.js:23-26 | NULL for a falsy date, else the date followed by " 00:00:00" |
| NoticeEvent.ToEndDateTime | src/controllers/admin.noticeEvent.controllers.js:28-31 | NULL for a falsy date, else the date followed by " 23:59:59" |
| NoticeEvent.EventStatus | src/controllers/admin.noticeEvent.controllers.js:10-18 | always 0, 1 or 2 |
| NoticeEvent.EventStatusSpec | src/controllers/admin.noticeEvent.controllers.js:13-17 | 0 iff now is before the start; 2 iff now is not before the start and after the end; 1 iff start <= now <= end |
| NoticeEvent.NoDatesRunning | src/controllers/admin.noticeEvent.controllers.js:13-17 | a row without dates is classified as running |
| NoticeEvent.EventStatusMonotone | src/controllers/admin.noticeEvent.controllers.js:13-17 | the status never goes back as time passes |
| NoticeEvent.CreatedEventStatus | src/controllers/admin.noticeEvent.controllers.js:420-437 | a created event is scheduled before its first day, running through its last day and ended after it |
| NoticeEvent.SyncAll | src/controllers/admin.noticeEvent.controllers.js:10-21 | every row gets the status its dates give now; no other column changes |
| NoticeEvent.SyncAllIdempotent | src/controllers/admin.noticeEvent.controllers.js:10-21 | syncing twice at one instant is syncing once, and a row without dates then reads as running |
| NoticeEvent.UpdatedEventDates | src/controllers/admin.noticeEvent.controllers.js:419-420 | the dates an update evidently means to store: the start padded to midnight and the end to the last second of its day, as `createEvent` pads them |
| NoticeEvent.UpdatedEventEndsADayEarly | src/controllers/admin.noticeEvent.controllers.js:327-339 | as written, an event updated with a bare end date reads as ended during its last day |
| NoticeEvent.EndOfDayCoversDay | src/controllers/admin.noticeEvent.controllers.js:28-31 | with padded dates an event runs through the whole of its last day |
| NoticeEvent.StatusName | src/controllers/admin.noticeEvent.controllers.js:53-58 | one name per status 0/1/2, NULL otherwise |
| NoticeEvent.StatusNameInjective | src/controllers/admin.noticeEvent.controllers.js:53-58 | distinct statuses get distinct names |
| NoticeEvent.DayOf | src/controllers/admin.noticeEvent.controllers.js:51-52 | the date part of a DATETIME, NULL for NULL |
| NoticeEvent.Listed | src/controllers/admin.noticeEvent.controllers.js:59-60 | the live rows of one category, newest key first |
| NoticeEvent.SyncedStatusNamed | src/controllers/admin.noticeEvent.controllers.js:38-68 | after a sync every listed event carries the name of its current status |
| NoticeEvent.NoticeEventDb.SyncEventStatus | src/controllers/admin.noticeEvent.controllers.js:10-21 | the sync applied, or no change on error |
| NoticeEvent.NoticeEventDb.GetAdminEvents | src/controllers/admin.noticeEvent.controllers.js:38-68 | sync, then the live events newest first with day strings and status names |
| NoticeEvent.NoticeEventDb.GetAdminNotices | src/controllers/admin.noticeEvent.controllers.js:75-90 | the live notices newest first with their posting day |
| NoticeEvent.NoticeEventDb.GetDetail | src/controllers/admin.noticeEvent.controllers.js:95-136 | 400 for id 0, sync, then the row of that key or 404; the whole row with its synced numeric status, not the handlers' column projections |
| NoticeEvent.NoticeEventDb.UpdateNotice | src/controllers/admin.noticeEvent.controllers.js:139-178 | 400 iff the id is 0 or a field is blank; otherwise the fields stored untrimmed, or 404 without a row |
| NoticeEvent.NoticeEventDb.Delete | src/controllers/admin.noticeEvent.controllers.js:182-211 | a guarded soft delete scoped to the category: only a live row of that category is flagged |
| NoticeEvent.NoticeEventDb.CreateNotice | src/controllers/admin.noticeEvent.controllers.js:214-243 | a notice with trimmed fields, cate 1, no dates, status 0, live, under the next key |
| NoticeEvent.NoticeEventDb.UpdateEvent | src/controllers/admin.noticeEvent.controllers.js:299-357 | 400 iff the id is 0, a field is blank, a date is missing or the end is below the start; otherwise the fields, the dates as sent (not padded) and the status they give now, or 404 |
| NoticeEvent.NoticeEventDb.CreateEvent | src/controllers/admin.noticeEvent.controllers.js:395-462 | an event with trimmed fields, padded dates and the status they give now, under the next key |
| Community.Toggle | src/controllers/community.controllers.js:196-221 | deletes the like iff it exists ("unliked") and inserts it otherwise ("liked") |
| Community.ToggleTwice | src/controllers/community.controllers.js:196-221 | two toggles restore the table and report opposite actions |
| Community.ToggleMovesCountByOne | src/controllers/community.controllers.js:174-221 | a toggle moves the post's like count by exactly one and no other post's |
| Community.ImagesOf | src/controllers/community.controllers.js:94 | an image row is returned iff it belongs to the post |
| Community.TagsOf | src/controllers/community.controllers.js:119 | a tag row is kept iff it names the image |
| Community.TagsOn | src/controllers/community.controllers.js:106-111 | exactly the tags placed on one of the given images |
| Community.Assemble | src/controllers/community.controllers.js:117-120 | one entry per image, in order, each with its own tags |
| Community.TagShownOnce | src/controllers/community.controllers.js:117-120 | every tag of the query shows on exactly one image, the one it names |
| Community.TagRowOf | src/controllers/community.controllers.js:44 | `goods_id` defaults to null, x and y to 0 |
| Community.NewImages | src/controllers/community.controllers.js:28-31 | one image row per file name, numbered from the counter |
| Community.TagGroups | src/controllers/community.controllers.js:38-49 | the tags sent at index k attach to the k-th new image |
| Community.CreatedImagesCarryTheirTags | src/controllers/community.controllers.js:27-53 | over tables whose keys lie below the counters, the detail view of the tables after the inserts shows the created post with exactly the images sent, the k-th with exactly the tags sent at index k |
| Community.CreatedPostShown | src/controllers/community.controllers.js:27-53 | the same for every image at once: the tables after the inserts show the post as sent |
| Community.CreateKeepsKeysBelow | src/controllers/community.controllers.js:4-53 | the inserts keep every post key, image id and tagged image id below the advanced counters |
| Community.TagRowsFor | src/controllers/community.controllers.js:41-49 | one tag row per tag of one image, with the defaults applied |
| Community.InsertImagesAndTags | src/controllers/community.controllers.js:27-53 | image rows for every file and tag rows for every tag, matching the pure grouping |
| Community.BoardList | src/controllers/community.controllers.js:59-74 | live posts with at least one image, newest first, with first image and like count |
| Community.CommunityDb.Create | src/controllers/community.controllers.js:4-56 | 500 and no change on error; otherwise the post and its images and tags, 201; it keeps the keys below the counters, so the new tables are those `CreatedPostShown` is about |
| Community.CommunityDb.List | src/controllers/community.controllers.js:59-74 | the board list |
| Community.CommunityDb.Detail | src/controllers/community.controllers.js:77-130 | 404 for a missing or deleted post; the images (empty when none) each with their tags |
| Community.CommunityDb.Update | src/controllers/community.controllers.js:133-143 | only a live post changes; 200 either way |
| Community.CommunityDb.Delete | src/controllers/community.controllers.js:145-152 | flags the row without checking it, 200 either way |
| Community.CommunityDb.GetLikeStatus | src/controllers/community.controllers.js:174-193 | `isLiked` iff the user has a like row; `likeCount` is the post's number of likes |
| Community.CommunityDb.ToggleLike | src/controllers/community.controllers.js:196-221 | the toggle applied, or no change on error |
| ImageList.Split | src/controllers/goods.controllers.js:68 | at least one piece and no piece holds a comma |
| ImageList.SplitJoin | src/controllers/goods.controllers.js:68 | joining the pieces back with commas gives the string |
| ImageList.UrlsOf | src/controllers/goods.controllers.js:63-66 | objects map to their `url` and other elements are kept; it throws iff an element is null |
| ImageList.KeepAndTrim | src/controllers/goods.controllers.js:77-83 | never more URLs than entries |
| ImageList.KeepAndTrimMembers | src/controllers/goods.controllers.js:77-83 | a stored URL is exactly the trimmed string of a truthy entry without `[object Object]` |
| ImageList.NormalizeImages | src/controllers/goods.controllers.js:60-83 | it fails iff `images` is an array holding null |
| ImageList.NormalizedUrlsClean | src/controllers/goods.controllers.js:77-83 | every stored URL is trimmed and free of the `[object Object]` marker |
| ImageList.ObjectUrlsStoredAsSent | src/controllers/goods.controllers.js:63-83 | an array of `{ url }` with clean URLs is stored as sent |
| ImageList.CommaStringStoredPieceByPiece | src/controllers/goods.controllers.js:67-83 | a comma string of clean URLs is stored as its pieces, which join back to it |
| Goods.ImageRows | src/controllers/goods.controllers.js:79-83 | each image row carries the new key, its URL and the post's condition type |
| Goods.ImageUrls | src/controllers/goods.controllers.js:145-154 | exactly the URLs stored for the goods |
| Goods.FirstImage | src/controllers/goods.controllers.js:104 | the first stored image, NULL when none |
| Goods.NoImagesAt | src/controllers/goods.controllers.js:60-83 | while every image row's key lies below the counter, the key the counter hands out has no images |
| Goods.CreateKeepsImagesBelow | src/controllers/goods.controllers.js:60-83 | the rows inserted under the new key keep every image key below the advanced counter |
| Goods.CreatedImagesShown | src/controllers/goods.controllers.js:60-95 | a post without earlier image rows shows exactly the normalised URLs, in order, once its rows are appended |
| Goods.ToggleStatus | src/controllers/goods.controllers.js:194-209 | status 1 becomes 0, any other becomes 1, a missing row is inserted with 1; the answer is the stored status |
| Goods.ToggleTwice | src/controllers/goods.controllers.js:194-209 | toggling twice restores a row whose status was 0 or 1; a missing row is left with status 0 |
| Goods.ToggleMovesCountByOne | src/controllers/goods.controllers.js:194-209 | a toggle moves the goods' like count by exactly one and no other goods' |
| Goods.GoodsDb.Create | src/controllers/goods.controllers.js:19-97 | 500 and no change when the post insert fails; otherwise the post under the next key, then 200 with the image rows appended unless the list is empty or their insert fails (only logged); a null array element throws after the post insert and no response is sent; on 200 the new key shows exactly the URLs appended (none when skipped or failed), and image keys stay below the counter |
| Goods.GoodsDb.List | src/controllers/goods.controllers.js:100-118 | live goods newest first, each with its first image and like count |
| Goods.GoodsDb.FindOne | src/controllers/goods.controllers.js:120-179 | 200 iff the post is live and no query failed; a missing post is 500, not 404 |
| Goods.GoodsDb.ToggleLike | src/controllers/goods.controllers.js:183-212 | the toggle applied, or no change on error |
| Goods.GoodsDb.Remove | src/controllers/goods.controllers.js:216-232 | the unguarded soft delete |
| Nanum.ImageRows | src/controllers/nanum.controllers.js:47-55 | each image row carries only the new key and its URL |
| Nanum.ImageUrls | src/controllers/nanum.controllers.js:74-83 | exactly the URLs stored for the post |
| Nanum.FirstImage | src/controllers/nanum.controllers.js:96 | the first stored image, NULL when none |
| Nanum.ImageUrlsOfRows | src/controllers/nanum.controllers.js:47-55 | the new rows show their URLs under their own post and nothing under another |
| Nanum.NoImagesAt | src/controllers/nanum.controllers.js:19-55 | while every image row's key lies below the counter, the key the counter hands out has no images |
| Nanum.CreateKeepsImagesBelow | src/controllers/nanum.controllers.js:19-55 | the rows inserted under the new key keep every image key below the advanced counter |
| Nanum.CreatedImagesShown | src/controllers/nanum.controllers.js:19-58 | a post without earlier image rows shows exactly the normalised URLs once its rows are appended, and every other post keeps its images |
| Nanum.ApplyKeepsOnePerPair | src/controllers/nanum.controllers.js:149-167 | an apply that passed the check keeps at most one row per (nanum, user) |
| Nanum.NanumDb.Create | src/controllers/nanum.controllers.js:3-60 | 500 and no change when the post insert fails; otherwise the post under the next key with `end_nanum` 24 hours after now, then 200 with the image rows appended unless the list is empty or their insert fails (only logged); a null array element throws and no response is sent; on 200 the new key shows exactly the URLs appended (none when skipped or failed), and image keys stay below the counter |
| Nanum.NanumDb.FindOne | src/controllers/nanum.controllers.js:63-88 | 404 iff the post is missing, deleted or has no author row; otherwise the post with its images |
| Nanum.NanumDb.FindAll | src/controllers/nanum.controllers.js:92-109 | live posts newest first with their first image |
| Nanum.NanumDb.Remove | src/controllers/nanum.controllers.js:112-126 | the unguarded soft delete |
| Nanum.NanumDb.Apply | src/controllers/nanum.controllers.js:145-170 | 400 and no insert iff the user already applied; otherwise one application with status 0 |
| UserAccount.Clashing | src/controllers/user.controllers.js:20-35 | every returned row is a user sharing the phone or the nickname, and every such user is returned |
| UserAccount.FindDuplicates | src/controllers/user.controllers.js:38-47 | the phone flag iff some row has the phone; the nickname flag iff some row has the nickname |
| UserAccount.FirstWithPhone | src/controllers/user.controllers.js:116-127 | the smallest key in range whose user has the phone; none iff no user in range has it |
| UserAccount.UserDb.Register | src/controllers/user.controllers.js:8-99 | 400 before any query when a field is missing or empty; the flags say exactly which fields are taken and any flag means 409; a duplicate key on insert is 409 and another insert error 500; otherwise 201 and one new user under the next key; nothing changes unless 201 |
| UserAccount.UserDb.Login | src/controllers/user.controllers.js:104-157 | 400 for a missing field; 401 when no user has the phone; 200 iff the trimmed name equals the stored one |
| UserAccount.PaddedNameNeverMatches | src/controllers/user.controllers.js:139-144 | a stored name with white space at either end never equals a trimmed input |
| UserAccount.ClashingFlagsTakenFields | src/controllers/user.controllers.js:20-55 | the flags are set exactly for the fields some user already holds |
| UserAccount.LookUpDuplicates | src/controllers/user.controllers.js:20-47 | the phone flag iff some user in the table has the phone; the nickname flag iff some user has the nickname |
| AddressSearch.LeadingDigits | src/controllers/address.controllers.js:10 | the longest run of digits at the front |
| AddressSearch.ParseIntOfDecimal | src/controllers/address.controllers.js:10 | `parseInt` reads back a printed number and stops at the first non-digit |
| AddressSearch.Limit | src/controllers/address.controllers.js:10 | 10 when absent or empty; NaN iff unparsable; never above 30 |
| AddressSearch.LimitOfDecimal | src/controllers/address.controllers.js:10 | a decimal limit n gives `min(n, 30)` |
| AddressSearch.LikeStarts | src/controllers/address.controllers.js:44-46 | `term%` matches iff the name starts with the term |
| AddressSearch.LikeContains | src/controllers/address.controllers.js:44-46 | `%term%` matches iff the name contains the term |
| AddressSearch.UnderscoreMatchesAnyName | src/controllers/address.controllers.js:44-46 | the term is not escaped: the search `_` matches every non-empty name |
| AddressSearch.BeforeIsStrictWeakOrder | src/controllers/address.controllers.js:37-39 | `rank, full_name ASC` is asymmetric and its "not before" is transitive, so the sort can order by it |
| AddressSearch.Candidates | src/controllers/address.controllers.js:35-36 | a row is a candidate iff it is active and its squeezed name contains the term |
| AddressSearch.Search | src/controllers/address.controllers.js:4-55 | 200 or 500, with no items on 500; a missing or blank `q` answers 200 with `[]` |
| AddressSearch.SearchSpec | src/controllers/address.controllers.js:6-46 | a non-blank query with a usable limit answers 200 with `min(limit, matches)` active rows of the table whose squeezed name contains the trimmed query without white space, the front of all matching rows in rank-then-name order |
| AddressSearch.StartsWithRanksFirst | src/controllers/address.controllers.js:37-39 | for a term without `%` or `_`, rank 0 iff the squeezed name starts with the term, and a row matches iff it is active and its squeezed name contains the term |
| Profile.OwnNicknameNotTaken | src/controllers/profile.controllers.js:25 | keeping one's own nickname is never refused while nicknames are unique |
| Profile.RenameKeepsUnique | src/controllers/profile.controllers.js:25-47 | a rename that passed the check keeps nicknames unique and changes only that user |
| Profile.ProfileDb.GetProfile | src/controllers/profile.controllers.js:4-19 | the row, or 404 iff no user has the key |
| Profile.ProfileDb.UpdateNickname | src/controllers/profile.controllers.js:22-49 | 400 iff another user holds the nickname; 404 without a row; otherwise only that nickname changes and uniqueness is kept |

## Left out

- The routes, `server.js`, `src/db.js` and `src/middlewares/error.middleware.js` are not part of this model. They are Express wiring and pool set-up.
- `src/controllers/event.controllers.js` is not part of this model. It is plain `SELECT` pass-through.
- Connection checkout, `FOR UPDATE` locks and concurrent requests are not modelled. Every handler runs alone and a transaction is atomic.
- The check-then-insert races in `apply`, `register`, `updateNickname` and the toggles are out for the same reason.
- JWT signing and bcrypt hashing are foreign libraries. `register` stores its row without the password column.
- Multer disk storage, directory creation and the random stored file name are file-system I/O and randomness. The stored name is a parameter.
- JS `Date` parsing of anything other than a valid `YYYY-MM-DD HH:mm:ss` string is out. `App.ToIsoFromKst` is exact only on that input; elsewhere `normalizeDatesDeep` answers "outside the model".
- The dashboard's date aggregation (`CURDATE`, `INTERVAL`, the 7-day union) is out. It is calendar arithmetic inside the database.
- The `ORDER BY RAND()` related goods of `findOne` are random and are out.
- The fire-and-forget image and tag inserts of `commCreate` are out as timing. The model inserts them before answering, and their errors are only logged, so none are modelled.
- Admin.AdminDb.GetUserDetail: the `created_at` column of the answered row is not modelled, because the model stores no creation time.
- `created_at` is not stored. `ORDER BY created_at DESC` is read as descending key order, which matches while rows are inserted with `NOW()`.
- A JSON request body is modelled only as far as the handlers read it. Ids are `int`. Where the handler applies `Number(...)`, a non-numeric id counts as 0. `NaN` and non-integer numbers are not values of `ImageList.Val`: a fractional element of `images` such as `1.5`, which the source stores as the text "1.5", cannot be represented.
- Chat.ChatDb.SendMessage and Chat.ChatDb.SendFirstMessage: `sendMessage` and `sendFirstMessage` take their ids from the body without `Number(...)`. A non-numeric string id such as `"x"` is truthy, so it passes their guards and reaches the queries (500, or 404 from the seller lookup). The model takes these ids as numbers, with 0 for a missing one, so it does not capture that path.
- MySQL collation is not modelled. `=` and `LIKE` are case- and trailing-space-sensitive here, and names sort by code point. Address rows with equal names are ordered by the model's stable sort.
- `LIKE`'s backslash escape is not modelled. The search term is assumed free of `\`.
- A query-string parameter that arrives as an array is not modelled.
- `Common.ToLower` lower-cases ASCII letters only. That is exact for the allow-lists and `isDateKey`, which compare against ASCII text.
- The schema is not part of the source, so its foreign keys are a reading of the handlers. The message table is taken to reference the room table: `Chat.ChatDb.SendMessage` into a chat id that has no room answers 500 through the failing insert. The source has no 404 branch for it. The read-state table is taken to have no such key: `Chat.ChatDb.MarkReadToLatest` and `Chat.ChatDb.MarkChatRead` on a chat id with no room insert a read-state row and answer 200.
- `(SELECT image_url … LIMIT 1)` has no `ORDER BY`, so MySQL may return any image of the item. `Goods.FirstImage`, `Nanum.FirstImage` and the community list's image read it as the first image row in insertion order.
- A `tags` body that parses to `null` (the text "null") makes `parsedTags[index]` throw inside the image-insert callback of `commCreate`. The model treats it like missing or unparsable tags: no tag rows.
- Profile.ProfileDb.UpdateNickname: a request without `newNickname` is not modelled. The nickname is a string, and `= NULL` matches nothing in the check.
- The nanum status change at `end_nanum` exists only as a commented-out SQL event and is not modelled.
- UserAccount.UserDb.Register: the columns a new user row takes from table defaults are given by the `defaults` constant, not derived from a schema.
- AUTO_INCREMENT gaps left by failed inserts are not modelled. A counter advances only on a committed insert.

## Findings

| source | as written | input that shows it | evidently intended | confidence | as-written member | corrected member |
|---|---|---|---|---|---|---|
| src/controllers/admin.noticeEvent.controllers.js:321-339 | `updateEvent` stores and classifies the raw `YYYY-MM-DD` dates, which MySQL reads as midnight | update an event with `endDate = "2025-05-10"` and read it at `2025-05-10 12:00:00`: status 2 (ended) | pad the dates as `createEvent` does (`toStartDateTime`/`toEndDateTime`), so the event runs through its last day | medium, not executed | NoticeEvent.UpdatedEventEndsADayEarly | NoticeEvent.EndOfDayCoversDay |

`NoticeEvent.NoticeEventDb.UpdateEvent` stores the dates as the handler does, unpadded. `NoticeEvent.UpdatedEventDates` is the padding the handler evidently intends.
