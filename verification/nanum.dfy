/** Giveaway ("nanum") posts: creation with their image list, the detail
    view and the list, the soft delete, and applying for a giveaway. */
module Nanum {
  import opened Common
  import opened Schema
  import opened ImageList

  /** Seconds in the 24 hours a giveaway stays open. */
  const OPEN_SECONDS: int := 24 * 60 * 60

  /** A row of `dam_nanum_posts`; `endNanum` is a time in seconds. */
  datatype NanumPost = NanumPost(userId: int, title: string, content: string, status: int, endNanum: int)

  /** A row of `dam_nanum_images`: the post key and the URL, nothing else. */
  datatype NanumImage = NanumImage(nanumId: int, url: string)

  /** A row of `dam_nanum_apply`. */
  datatype Application = Application(nanumId: int, userId: int, status: int)

  /** One line of `findAll`. */
  datatype NanumItem = NanumItem(id: int, post: NanumPost, image: Option<string>)

  /** What `findOne` answers with: the post and its image URLs. */
  datatype NanumDetail = NanumDetail(post: NanumPost, images: seq<string>)

  /** The image rows `create` inserts for the new post. */
  function ImageRows(nanumId: int, urls: seq<string>): (r: seq<NanumImage>)
    ensures |r| == |urls|
    ensures forall i :: 0 <= i < |r| ==> r[i] == NanumImage(nanumId, urls[i])
  {
    seq(|urls|, i requires 0 <= i < |urls| => NanumImage(nanumId, urls[i]))
  }

  /** `SELECT image_url FROM dam_nanum_images WHERE nanum_id = ?`, in
      insertion order. */
  function ImageUrls(images: seq<NanumImage>, nanumId: int): (r: seq<string>)
    ensures |r| <= |images|
    ensures forall u :: u in r <==> NanumImage(nanumId, u) in images
  {
    if images == [] then []
    else
      var rest := ImageUrls(images[1..], nanumId);
      assert forall im :: im in images <==> im == images[0] || im in images[1..];
      (if images[0].nanumId == nanumId then [images[0].url] else []) + rest
  }

  /** `(SELECT image_url … LIMIT 1)`: the first image, NULL when none. */
  function FirstImage(images: seq<NanumImage>, nanumId: int): (r: Option<string>)
    ensures r.None? <==> ImageUrls(images, nanumId) == []
    ensures r.Some? ==> r.value == ImageUrls(images, nanumId)[0]
  {
    var urls := ImageUrls(images, nanumId);
    if urls == [] then None else Some(urls[0])
  }

  lemma {:induction false} ImageUrlsAppend(images: seq<NanumImage>, rows: seq<NanumImage>, nanumId: int)
    ensures ImageUrls(images + rows, nanumId) == ImageUrls(images, nanumId) + ImageUrls(rows, nanumId)
  {
    if images == [] {
      assert images + rows == rows;
    } else {
      assert (images + rows)[1..] == images[1..] + rows;
      ImageUrlsAppend(images[1..], rows, nanumId);
    }
  }

  /** The new rows show their URLs under their own post and nothing under
      any other. */
  lemma {:induction false} ImageUrlsOfRows(nanumId: int, urls: seq<string>, other: int)
    requires other != nanumId
    ensures ImageUrls(ImageRows(nanumId, urls), nanumId) == urls
    ensures ImageUrls(ImageRows(nanumId, urls), other) == []
  {
    if urls != [] {
      ImageUrlsOfRows(nanumId, urls[1..], other);
      assert ImageRows(nanumId, urls)[1..] == ImageRows(nanumId, urls[1..]);
      assert urls == [urls[0]] + urls[1..];
    }
  }

  /** The images of a new post are shown in its detail view exactly as
      normalised, in order, and the other posts' images are untouched. */
  lemma CreatedImagesShown(images: seq<NanumImage>, nanumId: int, urls: seq<string>, other: int)
    requires ImageUrls(images, nanumId) == []
    requires other != nanumId
    ensures ImageUrls(images + ImageRows(nanumId, urls), nanumId) == urls
    ensures ImageUrls(images + ImageRows(nanumId, urls), other) == ImageUrls(images, other)
  {
    ImageUrlsAppend(images, ImageRows(nanumId, urls), nanumId);
    ImageUrlsOfRows(nanumId, urls, other);
    assert [] + urls == urls;
    ImageUrlsAppend(images, ImageRows(nanumId, urls), other);
  }

  /** Every image row belongs to a post key below `n`: the foreign key of
      `dam_nanum_images` read against the AUTO_INCREMENT counter. */
  predicate ImagesBelow(images: seq<NanumImage>, n: int)
  {
    forall i :: 0 <= i < |images| ==> images[i].nanumId < n
  }

  /** A key the counter has not handed out yet has no images. */
  lemma {:induction false} NoImagesAt(images: seq<NanumImage>, nanumId: int)
    requires ImagesBelow(images, nanumId)
    ensures ImageUrls(images, nanumId) == []
  {
    if images != [] {
      NoImagesAt(images[1..], nanumId);
    }
  }

  /** The rows `create` inserts under the counter keep the image keys below
      the advanced counter. */
  lemma CreateKeepsImagesBelow(images: seq<NanumImage>, nanumId: int, urls: seq<string>)
    requires ImagesBelow(images, nanumId)
    ensures ImagesBelow(images + ImageRows(nanumId, urls), nanumId + 1)
  {
    var rows := ImageRows(nanumId, urls);
    forall i | 0 <= i < |images + rows| ensures (images + rows)[i].nanumId < nanumId + 1 {
      if i >= |images| {
        assert (images + rows)[i] == rows[i - |images|];
      }
    }
  }

  /** The user has already applied for the giveaway. */
  predicate HasApplied(applies: map<int, Application>, nanumId: int, userId: int)
  {
    exists k :: k in applies && applies[k].nanumId == nanumId && applies[k].userId == userId
  }

  /** No two applications pair the same giveaway with the same user. */
  predicate OnePerPair(applies: map<int, Application>)
  {
    forall a, b :: a in applies && b in applies && a != b ==>
      applies[a].nanumId != applies[b].nanumId || applies[a].userId != applies[b].userId
  }

  /** Inserting an application for a pair that has none keeps at most one
      row per pair, and the pair is then taken: a repeat is refused. */
  lemma ApplyKeepsOnePerPair(applies: map<int, Application>, applyId: int, nanumId: int, userId: int)
    requires OnePerPair(applies)
    requires !HasApplied(applies, nanumId, userId)
    requires applyId !in applies
    ensures OnePerPair(applies[applyId := Application(nanumId, userId, 0)])
    ensures HasApplied(applies[applyId := Application(nanumId, userId, 0)], nanumId, userId)
  {
    var after := applies[applyId := Application(nanumId, userId, 0)];
    assert applyId in after;
    forall a, b | a in after && b in after && a != b
      ensures after[a].nanumId != after[b].nanumId || after[a].userId != after[b].userId
    {
      if a != applyId && b != applyId {
        assert after[a] == applies[a] && after[b] == applies[b];
      } else if a == applyId {
        assert b in applies;
      } else {
        assert a in applies;
      }
    }
  }

  /** The giveaway tables with their AUTO_INCREMENT counters, and the keys
      of `damteul_users` (which `findOne` joins).  `fault` names the
      statement of a handler at which the store reports an error (counted
      from 0). */
  class NanumDb {
    var posts: Table<NanumPost>
    var nextId: int
    var images: seq<NanumImage>
    var applies: map<int, Application>
    var nextApplyId: int
    var userIds: set<int>

    ghost predicate Valid()
      reads this
    {
      && nextId >= 1 && (forall k :: k in posts ==> 1 <= k < nextId)
      && ImagesBelow(images, nextId)
      && nextApplyId >= 1 && (forall k :: k in applies ==> 1 <= k < nextApplyId)
      && OnePerPair(applies)
    }

    constructor (userIds: set<int>)
      ensures Valid()
      ensures posts == map[] && nextId == 1 && images == []
      ensures applies == map[] && nextApplyId == 1 && this.userIds == userIds
    {
      posts := map[];
      nextId := 1;
      images := [];
      applies := map[];
      nextApplyId := 1;
      this.userIds := userIds;
    }

    /** `create`: inserts the post, open until 24 hours after `now`, then
        the normalised image list.  An empty list skips the image insert,
        whose error is only logged; either way the answer is 200 with the
        new key.  A `null` element of an `images` array makes the handler
        throw after the post is inserted. */
    method Create(userId: int, title: string, content: string, status: int, imagesField: Val, now: int, fault: Fault)
      returns (code: int, nanumId: int)
      requires Valid()
      modifies this`posts, this`nextId, this`images
      ensures Valid()
      ensures FailsAt(fault, 0) ==>
                code == SERVER_ERROR && posts == old(posts) && nextId == old(nextId) && images == old(images)
      ensures !FailsAt(fault, 0) ==>
                && nanumId == old(nextId) && nanumId !in old(posts)
                && posts == old(posts)[nanumId := Row(NanumPost(userId, title, content, status, now + OPEN_SECONDS), 0)]
                && nextId == nanumId + 1
      ensures !FailsAt(fault, 0) ==>
                match NormalizeImages(imagesField)
                case None => code == NO_RESPONSE && images == old(images)
                case Some(urls) =>
                  && code == OK
                  && images == (if urls == [] || FailsAt(fault, 1) then old(images)
                                else old(images) + ImageRows(nanumId, urls))
                  && ImageUrls(images, nanumId) == (if urls == [] || FailsAt(fault, 1) then [] else urls)
    {
      if FailsAt(fault, 0) {
        return SERVER_ERROR, 0;
      }
      nanumId := nextId;
      posts := posts[nanumId := Row(NanumPost(userId, title, content, status, now + OPEN_SECONDS), 0)];
      nextId := nextId + 1;
      NoImagesAt(images, nanumId);
      var urls := NormalizeImages(imagesField);
      if urls.None? {
        return NO_RESPONSE, nanumId;
      }
      if urls.value != [] && !FailsAt(fault, 1) {
        CreateKeepsImagesBelow(images, nanumId, urls.value);
        CreatedImagesShown(images, nanumId, urls.value, nanumId + 1);
        images := images + ImageRows(nanumId, urls.value);
      }
      code := OK;
    }

    /** `findOne`: a live post whose author exists, with its images; 404
        for a missing or deleted post or a missing author. */
    method FindOne(nanumId: int, fault: Fault) returns (code: int, detail: Option<NanumDetail>)
      requires Valid()
      ensures FailsAt(fault, 0) ==> code == SERVER_ERROR
      ensures !FailsAt(fault, 0) ==>
                (code == NOT_FOUND <==> !(nanumId in LiveIds(posts) && posts[nanumId].data.userId in userIds))
      ensures code == OK <==>
                !FailsBefore(fault, 2) && nanumId in LiveIds(posts) && posts[nanumId].data.userId in userIds
      ensures code != OK ==> detail.None?
      ensures code == OK ==> detail == Some(NanumDetail(posts[nanumId].data, ImageUrls(images, nanumId)))
    {
      if FailsAt(fault, 0) {
        return SERVER_ERROR, None;
      }
      if nanumId !in posts || posts[nanumId].isDeleted != 0 || posts[nanumId].data.userId !in userIds {
        return NOT_FOUND, None;
      }
      if FailsAt(fault, 1) {
        return SERVER_ERROR, None;
      }
      return OK, Some(NanumDetail(posts[nanumId].data, ImageUrls(images, nanumId)));
    }

    /** `findAll`: the live posts newest first, each with its first image. */
    method FindAll(fault: Fault) returns (code: int, items: seq<NanumItem>)
      requires Valid()
      ensures code == OK <==> !FailsAt(fault, 0)
      ensures code != OK ==> code == SERVER_ERROR && items == []
      ensures code == OK ==>
                var ids := KeysDescBelow(LiveIds(posts), nextId);
                && |items| == |ids|
                && (forall id :: id in LiveIds(posts) <==> id in ids)
                && forall i :: 0 <= i < |ids| ==>
                     items[i] == NanumItem(ids[i], posts[ids[i]].data, FirstImage(images, ids[i]))
    {
      if FailsAt(fault, 0) {
        return SERVER_ERROR, [];
      }
      var t, ims := posts, images;
      var ids := KeysDescBelow(LiveIds(t), nextId);
      items := seq(|ids|, i requires 0 <= i < |ids| => NanumItem(ids[i], t[ids[i]].data, FirstImage(ims, ids[i])));
      code := OK;
    }

    /** `remove`: flags the row with that key, deleted or not; 404 only
        when there is no such row. */
    method Remove(nanumId: int, fault: Fault) returns (code: int)
      requires Valid()
      modifies this`posts
      ensures Valid()
      ensures FailsAt(fault, 0) ==> code == SERVER_ERROR && posts == old(posts)
      ensures !FailsAt(fault, 0) ==> (posts, code) == UnguardedSoftDelete(old(posts), nanumId)
    {
      if FailsAt(fault, 0) {
        return SERVER_ERROR;
      }
      var r := UnguardedSoftDelete(posts, nanumId);
      posts := r.0;
      code := r.1;
    }

    /** `apply`: refuses a user who already applied for the giveaway with
        400 and otherwise inserts one application with status 0, answering
        its key.  Applications stay at most one per pair. */
    method Apply(nanumId: int, userId: int, fault: Fault) returns (code: int, applyId: int)
      requires Valid()
      modifies this`applies, this`nextApplyId
      ensures Valid()
      ensures FailsAt(fault, 0) ==> code == SERVER_ERROR
      ensures !FailsAt(fault, 0) && HasApplied(old(applies), nanumId, userId) ==> code == BAD_REQUEST
      ensures code == OK <==> !FailsBefore(fault, 2) && !HasApplied(old(applies), nanumId, userId)
      ensures code != OK ==> applies == old(applies) && nextApplyId == old(nextApplyId)
      ensures code == OK ==>
                && applyId == old(nextApplyId) && applyId !in old(applies)
                && applies == old(applies)[applyId := Application(nanumId, userId, 0)]
                && nextApplyId == applyId + 1
    {
      if FailsAt(fault, 0) {
        return SERVER_ERROR, 0;
      }
      if exists k :: k in applies && applies[k].nanumId == nanumId && applies[k].userId == userId {
        return BAD_REQUEST, 0;
      }
      if FailsAt(fault, 1) {
        return SERVER_ERROR, 0;
      }
      applyId := nextApplyId;
      ApplyKeepsOnePerPair(applies, applyId, nanumId, userId);
      applies := applies[applyId := Application(nanumId, userId, 0)];
      nextApplyId := nextApplyId + 1;
      code := OK;
    }
  }
}
