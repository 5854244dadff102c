/** Second-hand goods posts: creation with their image list, the public
    list, the detail view, the like toggle and the soft delete. */
module Goods {
  import opened Common
  import opened Schema
  import opened ImageList

  /** A row of `dam_goods_posts` (the columns `create` writes). */
  datatype GoodsPost = GoodsPost(
    userId: int,
    categoryId: int,
    title: string,
    content: string,
    price: int,
    conversationType: string,
    conditionType: string,
    defectNote: string,
    status: int)

  /** A row of `dam_goods_images`: the post's condition is copied onto each
      image. */
  datatype GoodsImage = GoodsImage(goodsId: int, url: string, conditionType: string)

  /** The key of a `dam_goods_likes` row; the table maps it to `status`. */
  datatype LikeKey = LikeKey(goodsId: int, userId: int)

  /** One line of the `post` list. */
  datatype GoodsItem = GoodsItem(id: int, post: GoodsPost, image: Option<string>, likeCount: nat)

  /** What `findOne` answers with. */
  datatype GoodsDetail = GoodsDetail(post: GoodsPost, likeCount: nat, likeStatus: Option<int>, images: seq<string>)

  /** The image rows `create` inserts for the new post. */
  function ImageRows(goodsId: int, urls: seq<string>, conditionType: string): (r: seq<GoodsImage>)
    ensures |r| == |urls|
    ensures forall i :: 0 <= i < |r| ==> r[i].goodsId == goodsId && r[i].url == urls[i] && r[i].conditionType == conditionType
  {
    seq(|urls|, i requires 0 <= i < |urls| => GoodsImage(goodsId, urls[i], conditionType))
  }

  /** `SELECT image_url FROM dam_goods_images WHERE goods_id = ?`, in
      insertion order. */
  function ImageUrls(images: seq<GoodsImage>, goodsId: int): (r: seq<string>)
    ensures |r| <= |images|
    ensures forall u :: u in r <==> exists im :: im in images && im.goodsId == goodsId && im.url == u
  {
    if images == [] then []
    else
      var rest := ImageUrls(images[1..], goodsId);
      assert forall im :: im in images[1..] ==> im in images;
      assert forall im :: im in images ==> im == images[0] || im in images[1..];
      (if images[0].goodsId == goodsId then [images[0].url] else []) + rest
  }

  /** `(SELECT image_url … LIMIT 1)`: the first image, NULL when none. */
  function FirstImage(images: seq<GoodsImage>, goodsId: int): (r: Option<string>)
    ensures r.None? <==> ImageUrls(images, goodsId) == []
    ensures r.Some? ==> r.value == ImageUrls(images, goodsId)[0]
  {
    var urls := ImageUrls(images, goodsId);
    if urls == [] then None else Some(urls[0])
  }

  /** The images stored for a new post are those of the other posts plus
      the new URLs, in order. */
  lemma {:induction false} ImageUrlsAppend(images: seq<GoodsImage>, rows: seq<GoodsImage>, goodsId: int)
    ensures ImageUrls(images + rows, goodsId) == ImageUrls(images, goodsId) + ImageUrls(rows, goodsId)
  {
    if images == [] {
      assert images + rows == rows;
    } else {
      var ab := images + rows;
      assert ab[0] == images[0];
      assert ab[1..] == images[1..] + rows;
      ImageUrlsAppend(images[1..], rows, goodsId);
      var head := if images[0].goodsId == goodsId then [images[0].url] else [];
      assert ImageUrls(ab, goodsId) == head + ImageUrls(ab[1..], goodsId);
      assert ImageUrls(images, goodsId) == head + ImageUrls(images[1..], goodsId);
    }
  }

  lemma {:induction false} ImageUrlsOfRows(goodsId: int, urls: seq<string>, cond: string)
    ensures ImageUrls(ImageRows(goodsId, urls, cond), goodsId) == urls
  {
    if urls != [] {
      ImageUrlsOfRows(goodsId, urls[1..], cond);
      assert ImageRows(goodsId, urls, cond)[1..] == ImageRows(goodsId, urls[1..], cond);
      assert urls == [urls[0]] + urls[1..];
    }
  }

  /** A post created with images and no earlier image rows of its own shows
      exactly those URLs, in the order sent, in its detail view. */
  lemma CreatedImagesShown(images: seq<GoodsImage>, goodsId: int, urls: seq<string>, cond: string)
    requires ImageUrls(images, goodsId) == []
    ensures ImageUrls(images + ImageRows(goodsId, urls, cond), goodsId) == urls
  {
    ImageUrlsAppend(images, ImageRows(goodsId, urls, cond), goodsId);
    ImageUrlsOfRows(goodsId, urls, cond);
    assert [] + urls == urls;
  }

  /** Every image row belongs to a post key below `n`: the foreign key of
      `dam_goods_images` read against the AUTO_INCREMENT counter. */
  predicate ImagesBelow(images: seq<GoodsImage>, n: int)
  {
    forall i :: 0 <= i < |images| ==> images[i].goodsId < n
  }

  /** A key the counter has not handed out yet has no images. */
  lemma {:induction false} NoImagesAt(images: seq<GoodsImage>, goodsId: int)
    requires ImagesBelow(images, goodsId)
    ensures ImageUrls(images, goodsId) == []
  {
    if images != [] {
      NoImagesAt(images[1..], goodsId);
    }
  }

  /** The rows `create` inserts under the counter keep the image keys below
      the advanced counter. */
  lemma CreateKeepsImagesBelow(images: seq<GoodsImage>, goodsId: int, urls: seq<string>, cond: string)
    requires ImagesBelow(images, goodsId)
    ensures ImagesBelow(images + ImageRows(goodsId, urls, cond), goodsId + 1)
  {
    var rows := ImageRows(goodsId, urls, cond);
    forall i | 0 <= i < |images + rows| ensures (images + rows)[i].goodsId < goodsId + 1 {
      if i >= |images| {
        assert (images + rows)[i] == rows[i - |images|];
      }
    }
  }

  /** The like rows of a goods whose status is 1. */
  function Liked(likes: map<LikeKey, int>, goodsId: int): set<LikeKey>
  {
    set k | k in likes && k.goodsId == goodsId && likes[k] == 1
  }

  /** `COUNT(*) FROM dam_goods_likes WHERE goods_id = ? AND status = 1`. */
  function LikeCount(likes: map<LikeKey, int>, goodsId: int): nat
  {
    |Liked(likes, goodsId)|
  }

  /** `toggleLike`: an existing row's status goes from 1 to 0 and from any
      other value to 1; a missing row is inserted with 1.  The second
      component is the status answered, which is the one stored. */
  function ToggleStatus(likes: map<LikeKey, int>, key: LikeKey): (r: (map<LikeKey, int>, int))
    ensures r.0.Keys == likes.Keys + {key}
    ensures key in r.0 && r.0[key] == r.1
    ensures r.1 == 0 <==> key in likes && likes[key] == 1
    ensures r.1 == 0 || r.1 == 1
    ensures forall k :: k in likes && k != key ==> r.0[k] == likes[k]
  {
    var status := if key in likes && likes[key] == 1 then 0 else 1;
    (likes[key := status], status)
  }

  /** Toggling twice restores a row whose status was 0 or 1; a missing row
      is left behind with status 0. */
  lemma ToggleTwice(likes: map<LikeKey, int>, key: LikeKey)
    ensures var twice := ToggleStatus(ToggleStatus(likes, key).0, key).0;
            && (key in likes && (likes[key] == 0 || likes[key] == 1) ==> twice == likes)
            && (key !in likes ==> twice == likes[key := 0])
  {
    var twice := ToggleStatus(ToggleStatus(likes, key).0, key).0;
    if key in likes && (likes[key] == 0 || likes[key] == 1) {
      assert twice.Keys == likes.Keys;
    } else if key !in likes {
      assert twice.Keys == likes.Keys + {key};
    }
  }

  /** A toggle answering 1 adds one like to the goods' count and one
      answering 0 removes one; other goods keep their counts. */
  lemma ToggleMovesCountByOne(likes: map<LikeKey, int>, key: LikeKey, other: int)
    requires other != key.goodsId
    ensures var (after, status) := ToggleStatus(likes, key);
            && LikeCount(after, key.goodsId) == LikeCount(likes, key.goodsId) + (if status == 1 then 1 else -1)
            && LikeCount(after, other) == LikeCount(likes, other)
  {
    ToggleOwnCount(likes, key);
    ToggleOtherCount(likes, key, other);
  }

  lemma ToggleOwnCount(likes: map<LikeKey, int>, key: LikeKey)
    ensures var (after, status) := ToggleStatus(likes, key);
            LikeCount(after, key.goodsId) == LikeCount(likes, key.goodsId) + (if status == 1 then 1 else -1)
  {
    var status := if key in likes && likes[key] == 1 then 0 else 1;
    var before := Liked(likes, key.goodsId);
    SetStatusLiked(likes, key, status);
    if status == 1 {
      assert key !in before;
    } else {
      assert key in before;
    }
  }

  /** Writing a status into one row adds the row to its goods' liked rows
      or takes it out. */
  lemma SetStatusLiked(likes: map<LikeKey, int>, key: LikeKey, status: int)
    ensures Liked(likes[key := status], key.goodsId) ==
            if status == 1 then Liked(likes, key.goodsId) + {key} else Liked(likes, key.goodsId) - {key}
  {
    var after := likes[key := status];
    var a := Liked(after, key.goodsId);
    var b := if status == 1 then Liked(likes, key.goodsId) + {key} else Liked(likes, key.goodsId) - {key};
    forall k ensures k in a <==> k in b {
      if k != key {
        assert k in after <==> k in likes;
      }
    }
  }

  lemma ToggleOtherCount(likes: map<LikeKey, int>, key: LikeKey, other: int)
    requires other != key.goodsId
    ensures LikeCount(ToggleStatus(likes, key).0, other) == LikeCount(likes, other)
  {
    var after := ToggleStatus(likes, key).0;
    assert Liked(after, other) == Liked(likes, other);
  }

  /** The goods tables and the AUTO_INCREMENT counter of the posts.
      `fault` names the statement of a handler at which the store reports an
      error (counted from 0). */
  class GoodsDb {
    var posts: Table<GoodsPost>
    var nextId: int
    var images: seq<GoodsImage>
    var likes: map<LikeKey, int>

    ghost predicate Valid()
      reads this
    {
      && nextId >= 1 && (forall k :: k in posts ==> 1 <= k < nextId)
      && ImagesBelow(images, nextId)
    }

    constructor (posts: Table<GoodsPost>, nextId: int, images: seq<GoodsImage>, likes: map<LikeKey, int>)
      requires nextId >= 1 && forall k :: k in posts ==> 1 <= k < nextId
      requires ImagesBelow(images, nextId)
      ensures Valid()
      ensures this.posts == posts && this.nextId == nextId && this.images == images && this.likes == likes
    {
      this.posts := posts;
      this.nextId := nextId;
      this.images := images;
      this.likes := likes;
    }

    /** `create`: inserts the post, then the normalised image list, each
        image carrying the new key and the post's condition.  An empty list
        skips the image insert, whose error is only logged; either way the
        answer is the new key.  A `null` element of an `images` array makes
        the handler throw after the post is inserted. */
    method Create(post: GoodsPost, imagesField: Val, fault: Fault) returns (code: int, goodsId: int)
      requires Valid()
      modifies this`posts, this`nextId, this`images
      ensures Valid()
      ensures FailsAt(fault, 0) ==>
                code == SERVER_ERROR && posts == old(posts) && nextId == old(nextId) && images == old(images)
      ensures !FailsAt(fault, 0) ==>
                && goodsId == old(nextId) && goodsId !in old(posts)
                && posts == old(posts)[goodsId := Row(post, 0)]
                && nextId == goodsId + 1
      ensures !FailsAt(fault, 0) ==>
                match NormalizeImages(imagesField)
                case None => code == NO_RESPONSE && images == old(images)
                case Some(urls) =>
                  && code == OK
                  && images == (if urls == [] || FailsAt(fault, 1) then old(images)
                                else old(images) + ImageRows(goodsId, urls, post.conditionType))
                  && ImageUrls(images, goodsId) == (if urls == [] || FailsAt(fault, 1) then [] else urls)
    {
      if FailsAt(fault, 0) {
        return SERVER_ERROR, 0;
      }
      goodsId := nextId;
      posts := posts[goodsId := Row(post, 0)];
      nextId := nextId + 1;
      NoImagesAt(images, goodsId);
      var urls := NormalizeImages(imagesField);
      if urls.None? {
        return NO_RESPONSE, goodsId;
      }
      if urls.value != [] && !FailsAt(fault, 1) {
        CreateKeepsImagesBelow(images, goodsId, urls.value, post.conditionType);
        CreatedImagesShown(images, goodsId, urls.value, post.conditionType);
        images := images + ImageRows(goodsId, urls.value, post.conditionType);
      }
      code := OK;
    }

    /** `post`: the live goods newest first, each with its first image and
        its count of status-1 likes. */
    method List(fault: Fault) returns (code: int, items: seq<GoodsItem>)
      requires Valid()
      ensures code == OK <==> !FailsAt(fault, 0)
      ensures code != OK ==> code == SERVER_ERROR && items == []
      ensures code == OK ==>
                var ids := KeysDescBelow(LiveIds(posts), nextId);
                && |items| == |ids|
                && (forall id :: id in LiveIds(posts) <==> id in ids)
                && forall i :: 0 <= i < |ids| ==>
                     items[i] == GoodsItem(ids[i], posts[ids[i]].data, FirstImage(images, ids[i]), LikeCount(likes, ids[i]))
    {
      if FailsAt(fault, 0) {
        return SERVER_ERROR, [];
      }
      var t, ims, ls := posts, images, likes;
      var ids := KeysDescBelow(LiveIds(t), nextId);
      items := seq(|ids|, i requires 0 <= i < |ids| =>
                 GoodsItem(ids[i], t[ids[i]].data, FirstImage(ims, ids[i]), LikeCount(ls, ids[i])));
      code := OK;
    }

    /** `findOne`: a live post with its like count, the asking user's like
        status (none without a `user_id`) and its images.  A missing or
        deleted post answers 500, as any query error does; the random
        related goods are not modelled. */
    method FindOne(goodsId: int, userId: Option<int>, fault: Fault) returns (code: int, detail: Option<GoodsDetail>)
      requires Valid()
      ensures code == OK <==> !FailsBefore(fault, 3) && goodsId in LiveIds(posts)
      ensures code != OK ==> code == SERVER_ERROR && detail.None?
      ensures code == OK ==>
                && detail.Some?
                && detail.value.post == posts[goodsId].data
                && detail.value.likeCount == LikeCount(likes, goodsId)
                && (detail.value.likeStatus.Some? <==> userId.Some? && LikeKey(goodsId, userId.value) in likes)
                && (detail.value.likeStatus.Some? ==> detail.value.likeStatus.value == likes[LikeKey(goodsId, userId.value)])
                && detail.value.images == ImageUrls(images, goodsId)
    {
      if FailsAt(fault, 0) || goodsId !in posts || posts[goodsId].isDeleted != 0 {
        return SERVER_ERROR, None;
      }
      if FailsAt(fault, 1) || FailsAt(fault, 2) {
        return SERVER_ERROR, None;
      }
      var status := if userId.Some? && LikeKey(goodsId, userId.value) in likes
                    then Some(likes[LikeKey(goodsId, userId.value)]) else None;
      return OK, Some(GoodsDetail(posts[goodsId].data, LikeCount(likes, goodsId), status, ImageUrls(images, goodsId)));
    }

    /** `toggleLike`: the check, then the update or the insert. */
    method ToggleLike(goodsId: int, userId: int, fault: Fault) returns (code: int, status: int)
      modifies this`likes
      ensures code == OK <==> !FailsBefore(fault, 2)
      ensures code != OK ==> code == SERVER_ERROR && likes == old(likes)
      ensures code == OK ==> (likes, status) == ToggleStatus(old(likes), LikeKey(goodsId, userId))
    {
      if FailsAt(fault, 0) || FailsAt(fault, 1) {
        return SERVER_ERROR, 0;
      }
      var r := ToggleStatus(likes, LikeKey(goodsId, userId));
      likes := r.0;
      return OK, r.1;
    }

    /** `remove`: flags the row with that key, deleted or not; 404 only
        when there is no such row. */
    method Remove(goodsId: int, fault: Fault) returns (code: int)
      requires Valid()
      modifies this`posts
      ensures Valid()
      ensures FailsAt(fault, 0) ==> code == SERVER_ERROR && posts == old(posts)
      ensures !FailsAt(fault, 0) ==> (posts, code) == UnguardedSoftDelete(old(posts), goodsId)
    {
      if FailsAt(fault, 0) {
        return SERVER_ERROR;
      }
      var r := UnguardedSoftDelete(posts, goodsId);
      posts := r.0;
      code := r.1;
    }
  }
}
