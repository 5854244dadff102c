/** The community board: posts with their images, the goods tags placed
    on each image, and the per-user likes of a post. */
module Community {
  import opened Common
  import opened Schema

  /** A row of `dam_community_posts`. */
  datatype CommPost = CommPost(userId: int, title: string, content: string, cate: int)

  /** A row of `dam_community_images`. */
  datatype ImageRow = ImageRow(imageId: int, postId: int, url: string)

  /** A row of `dam_community_tags`: a goods item pinned at (x, y) on an
      image. */
  datatype TagRow = TagRow(imageId: int, goodsId: Option<int>, x: int, y: int)

  /** A row of `dam_community_likes`. */
  datatype Like = Like(postId: int, userId: int)

  /** One tag object of the request's `tags` JSON, fields as sent. */
  datatype TagSpec = TagSpec(goodsId: Option<int>, x: Option<int>, y: Option<int>)

  /** An image of the detail view with the tags placed on it. */
  datatype ImageWithTags = ImageWithTags(image: ImageRow, tags: seq<TagRow>)

  /** One line of the board's list. */
  datatype ListItem = ListItem(id: int, title: string, cate: int, imageUrl: string, heart: int)

  // ---------------------------------------------------------------------
  // Likes
  // ---------------------------------------------------------------------

  /** `SELECT COUNT(*) … WHERE post_id = ?`: the users who like the post. */
  function LikeCount(likes: set<Like>, postId: int): nat
  {
    |set l | l in likes && l.postId == postId|
  }

  /** `toggleLike`: deletes the (post, user) like when there is one
      (`unliked`), and inserts it otherwise (`liked`). */
  function Toggle(likes: set<Like>, like: Like): (r: (set<Like>, bool))
    ensures r.1 <==> like !in likes
    ensures like in r.0 <==> like !in likes
    ensures forall l :: l != like ==> (l in r.0 <==> l in likes)
  {
    if like in likes then (likes - {like}, false) else (likes + {like}, true)
  }

  /** Two toggles of the same like restore the table, and report opposite
      actions. */
  lemma ToggleTwice(likes: set<Like>, like: Like)
    ensures Toggle(Toggle(likes, like).0, like).0 == likes
    ensures Toggle(Toggle(likes, like).0, like).1 != Toggle(likes, like).1
  {
  }

  /** A toggle moves the post's like count by exactly one, up when it likes
      and down when it unlikes, and leaves every other post's count. */
  lemma ToggleMovesCountByOne(likes: set<Like>, like: Like, other: int)
    requires other != like.postId
    ensures var (after, liked) := Toggle(likes, like);
            && LikeCount(after, like.postId) == LikeCount(likes, like.postId) + (if liked then 1 else -1)
            && LikeCount(after, other) == LikeCount(likes, other)
  {
    var (after, liked) := Toggle(likes, like);
    var before := set l | l in likes && l.postId == like.postId;
    var now := set l | l in after && l.postId == like.postId;
    if liked {
      assert now == before + {like};
    } else {
      assert now == before - {like};
    }
    assert (set l | l in after && l.postId == other) == (set l | l in likes && l.postId == other);
  }

  // ---------------------------------------------------------------------
  // Images and their tags
  // ---------------------------------------------------------------------

  /** `SELECT … FROM dam_community_images WHERE post_id = ?`, in insertion
      order. */
  function ImagesOf(images: seq<ImageRow>, postId: int): (r: seq<ImageRow>)
    ensures forall im :: im in r <==> im in images && im.postId == postId
    ensures |r| <= |images|
  {
    if images == [] then []
    else (if images[0].postId == postId then [images[0]] else []) + ImagesOf(images[1..], postId)
  }

  /** `tagRows.filter(tag => tag.image_id === img.image_id)`, order kept. */
  function TagsOf(tags: seq<TagRow>, imageId: int): (r: seq<TagRow>)
    ensures forall t :: t in r <==> t in tags && t.imageId == imageId
    ensures |r| <= |tags|
  {
    if tags == [] then []
    else (if tags[0].imageId == imageId then [tags[0]] else []) + TagsOf(tags[1..], imageId)
  }

  /** `WHERE t.image_id IN (SELECT image_id … WHERE post_id = ?)`: the tags
      on any of the given images. */
  function TagsOn(tags: seq<TagRow>, images: seq<ImageRow>): (r: seq<TagRow>)
    ensures forall t :: t in r <==> t in tags && exists im :: im in images && im.imageId == t.imageId
  {
    if tags == [] then []
    else (if exists im :: im in images && im.imageId == tags[0].imageId then [tags[0]] else []) +
         TagsOn(tags[1..], images)
  }

  /** `safeImages.map(img => ({ ...img, tags: … }))`. */
  function Assemble(images: seq<ImageRow>, tags: seq<TagRow>): (r: seq<ImageWithTags>)
    ensures |r| == |images|
    ensures forall i :: 0 <= i < |r| ==> r[i] == ImageWithTags(images[i], TagsOf(tags, images[i].imageId))
  {
    seq(|images|, i requires 0 <= i < |images| => ImageWithTags(images[i], TagsOf(tags, images[i].imageId)))
  }

  predicate DistinctImageIds(images: seq<ImageRow>)
  {
    forall i, j :: 0 <= i < j < |images| ==> images[i].imageId != images[j].imageId
  }

  /** Every tag of the detail query is shown on exactly one image: the image
      whose id it names. */
  lemma TagShownOnce(images: seq<ImageRow>, tags: seq<TagRow>, t: TagRow, i: int)
    requires DistinctImageIds(images)
    requires 0 <= i < |images| && t in TagsOn(tags, images) && t.imageId == images[i].imageId
    ensures var r := Assemble(images, TagsOn(tags, images));
            && t in r[i].tags
            && forall j :: 0 <= j < |r| && j != i ==> t !in r[j].tags
  {
    var r := Assemble(images, TagsOn(tags, images));
    forall j | 0 <= j < |r| && j != i
      ensures t !in r[j].tags
    {
      if j < i {
        assert images[j].imageId != images[i].imageId;
      } else {
        assert images[i].imageId != images[j].imageId;
      }
    }
  }

  // ---------------------------------------------------------------------
  // What commCreate inserts
  // ---------------------------------------------------------------------

  /** `tag.goods_id || null`, `tag.x || 0`, `tag.y || 0`. */
  function TagRowOf(imageId: int, spec: TagSpec): (r: TagRow)
    ensures r.imageId == imageId
    ensures r.goodsId.None? <==> spec.goodsId.None? || spec.goodsId == Some(0)
    ensures r.goodsId.Some? ==> r.goodsId == spec.goodsId
    ensures r.x == IfNull0(spec.x) && r.y == IfNull0(spec.y)
  {
    TagRow(imageId, if spec.goodsId == Some(0) then None else spec.goodsId, IfNull0(spec.x), IfNull0(spec.y))
  }

  function TagRowsOf(imageId: int, specs: seq<TagSpec>): (r: seq<TagRow>)
    ensures |r| == |specs|
    ensures forall j :: 0 <= j < |r| ==> r[j] == TagRowOf(imageId, specs[j])
    ensures forall j :: 0 <= j < |r| ==> r[j].imageId == imageId
  {
    seq(|specs|, j requires 0 <= j < |specs| => TagRowOf(imageId, specs[j]))
  }

  /** `parsedTags[index]` when it is an array: `parsed` is the value of
      `JSON.parse(tags)` (`None` when `tags` is missing or does not parse,
      which the handler treats as no tags), each element `None` when it is
      not an array. */
  function TagsAt(parsed: Option<seq<Option<seq<TagSpec>>>>, i: nat): seq<TagSpec>
  {
    if parsed.Some? && i < |parsed.value| && parsed.value[i].Some? then parsed.value[i].value else []
  }

  /** The image rows for `urls`, numbered from the AUTO_INCREMENT value
      `first`. */
  function NewImages(postId: int, urls: seq<string>, first: int): (r: seq<ImageRow>)
    ensures |r| == |urls|
    ensures forall i :: 0 <= i < |r| ==> r[i] == ImageRow(first + i, postId, urls[i])
  {
    seq(|urls|, i requires 0 <= i < |urls| => ImageRow(first + i, postId, urls[i]))
  }

  /** The tag rows of each image sent, in order: group `k` holds the tags
      sent at index `k`, on image `first + k`. */
  function TagGroups(n: nat, parsed: Option<seq<Option<seq<TagSpec>>>>, first: int): (r: seq<seq<TagRow>>)
    ensures |r| == n
    ensures forall k :: 0 <= k < n ==> r[k] == TagRowsOf(first + k, TagsAt(parsed, k))
  {
    seq(n, k requires 0 <= k < n => TagRowsOf(first + k, TagsAt(parsed, k)))
  }

  /** The groups one after the other. */
  function Flatten(groups: seq<seq<TagRow>>): (r: seq<TagRow>)
  {
    if groups == [] then [] else Flatten(groups[..|groups| - 1]) + groups[|groups| - 1]
  }

  /** The tag rows `commCreate` inserts for its first `n` images. */
  function NewTags(n: nat, parsed: Option<seq<Option<seq<TagSpec>>>>, first: int): seq<TagRow>
  {
    Flatten(TagGroups(n, parsed, first))
  }

  /** One more image appends its group. */
  lemma NewTagsStep(n: nat, parsed: Option<seq<Option<seq<TagSpec>>>>, first: int)
    ensures NewTags(n + 1, parsed, first) == NewTags(n, parsed, first) + TagRowsOf(first + n, TagsAt(parsed, n))
  {
    var g := TagGroups(n + 1, parsed, first);
    assert g[..n] == TagGroups(n, parsed, first);
    assert g[n] == TagRowsOf(first + n, TagsAt(parsed, n));
  }

  lemma {:induction false} TagsOfAppend(a: seq<TagRow>, b: seq<TagRow>, id: int)
    ensures TagsOf(a + b, id) == TagsOf(a, id) + TagsOf(b, id)
  {
    if a == [] {
      assert a + b == b;
    } else {
      assert (a + b)[0] == a[0];
      assert (a + b)[1..] == a[1..] + b;
      TagsOfAppend(a[1..], b, id);
    }
  }

  /** Filtering rows that all name one image keeps all of them or none. */
  lemma {:induction false} TagsOfOneImage(rows: seq<TagRow>, image: int, id: int)
    requires forall j :: 0 <= j < |rows| ==> rows[j].imageId == image
    ensures TagsOf(rows, id) == if image == id then rows else []
  {
    if rows != [] {
      TagsOfOneImage(rows[1..], image, id);
      if image == id {
        assert rows == [rows[0]] + rows[1..];
      }
    }
  }

  /** Appending rows for another image does not change a filter. */
  lemma AppendOtherImage(a: seq<TagRow>, b: seq<TagRow>, image: int, id: int)
    requires AllOnImage(b, image)
    requires image != id
    ensures TagsOf(a + b, id) == TagsOf(a, id)
  {
    TagsOfAppend(a, b, id);
    TagsOfOneImage(b, image, id);
    assert TagsOf(a, id) + [] == TagsOf(a, id);
  }

  /** Appending the rows of an image not yet tagged gives exactly them. */
  lemma AppendSameImage(a: seq<TagRow>, b: seq<TagRow>, id: int)
    requires AllOnImage(b, id)
    requires TagsOf(a, id) == []
    ensures TagsOf(a + b, id) == b
  {
    TagsOfAppend(a, b, id);
    TagsOfOneImage(b, id, id);
    assert [] + b == b;
  }

  predicate AllOnImage(rows: seq<TagRow>, image: int)
  {
    forall j :: 0 <= j < |rows| ==> rows[j].imageId == image
  }

  /** Group `k` holds only rows on image `first + k`. */
  predicate GroupsNumbered(groups: seq<seq<TagRow>>, first: int)
  {
    groups == [] ||
    (GroupsNumbered(groups[..|groups| - 1], first) && AllOnImage(groups[|groups| - 1], first + |groups| - 1))
  }

  /** Filtering the concatenation of numbered groups by image `first + i`
      gives back group `i`. */
  lemma {:induction false} FlattenByImage(groups: seq<seq<TagRow>>, first: int, i: int)
    requires GroupsNumbered(groups, first)
    requires 0 <= i
    ensures TagsOf(Flatten(groups), first + i) == if i < |groups| then groups[i] else []
  {
    if groups != [] {
      FlattenByImage(groups[..|groups| - 1], first, i);
      AppendGroup(groups, first, i);
    }
  }

  /** One step of `FlattenByImage`: appending the group of the next image. */
  lemma AppendGroup(groups: seq<seq<TagRow>>, first: int, i: int)
    requires groups != [] && 0 <= i
    requires var prev := groups[..|groups| - 1];
             TagsOf(Flatten(prev), first + i) == if i < |prev| then prev[i] else []
    requires AllOnImage(groups[|groups| - 1], first + |groups| - 1)
    ensures TagsOf(Flatten(groups), first + i) == if i < |groups| then groups[i] else []
  {
    var prev := groups[..|groups| - 1];
    var last := groups[|groups| - 1];
    assert Flatten(groups) == Flatten(prev) + last;
    if i == |prev| {
      AppendSameImage(Flatten(prev), last, first + i);
    } else {
      AppendOtherImage(Flatten(prev), last, first + |prev|, first + i);
      if i < |prev| {
        assert groups[i] == prev[i];
      }
    }
  }

  lemma {:induction false} TagGroupsNumbered(n: nat, parsed: Option<seq<Option<seq<TagSpec>>>>, first: int)
    ensures GroupsNumbered(TagGroups(n, parsed, first), first)
  {
    if n > 0 {
      TagGroupsNumbered(n - 1, parsed, first);
      assert TagGroups(n, parsed, first)[..n - 1] == TagGroups(n - 1, parsed, first);
    }
  }

  lemma NewTagsOfImage(n: nat, parsed: Option<seq<Option<seq<TagSpec>>>>, first: int, i: nat)
    ensures TagsOf(NewTags(n, parsed, first), first + i) ==
            if i < n then TagRowsOf(first + i, TagsAt(parsed, i)) else []
  {
    TagGroupsNumbered(n, parsed, first);
    FlattenByImage(TagGroups(n, parsed, first), first, i);
  }

  /** The foreign keys of the image and tag tables, read against the
      AUTO_INCREMENT counters: every image belongs to a post key below
      `nextPostId` and has an id below `nextImageId`, and every tag sits on
      an image id below `nextImageId`. */
  predicate KeysBelow(images: seq<ImageRow>, tags: seq<TagRow>, nextPostId: int, nextImageId: int)
  {
    && (forall k :: 0 <= k < |images| ==> images[k].postId < nextPostId && images[k].imageId < nextImageId)
    && (forall k :: 0 <= k < |tags| ==> tags[k].imageId < nextImageId)
  }

  lemma {:induction false} ImagesOfAppend(a: seq<ImageRow>, b: seq<ImageRow>, postId: int)
    ensures ImagesOf(a + b, postId) == ImagesOf(a, postId) + ImagesOf(b, postId)
  {
    if a == [] {
      assert a + b == b;
    } else {
      assert (a + b)[0] == a[0];
      assert (a + b)[1..] == a[1..] + b;
      ImagesOfAppend(a[1..], b, postId);
    }
  }

  lemma {:induction false} ImagesOfNewImages(postId: int, urls: seq<string>, first: int)
    ensures ImagesOf(NewImages(postId, urls, first), postId) == NewImages(postId, urls, first)
  {
    if urls != [] {
      var r := NewImages(postId, urls, first);
      ImagesOfNewImages(postId, urls[1..], first + 1);
      assert r[1..] == NewImages(postId, urls[1..], first + 1);
      assert r == [r[0]] + r[1..];
    }
  }

  /** Narrowing the tags to a set of images and then to one of them is
      narrowing to that image. */
  lemma {:induction false} TagsOfTagsOn(tags: seq<TagRow>, images: seq<ImageRow>, k: int)
    requires 0 <= k < |images|
    ensures TagsOf(TagsOn(tags, images), images[k].imageId) == TagsOf(tags, images[k].imageId)
  {
    if tags != [] {
      var id := images[k].imageId;
      var head := if exists im :: im in images && im.imageId == tags[0].imageId then [tags[0]] else [];
      TagsOfTagsOn(tags[1..], images, k);
      TagsOfAppend(head, TagsOn(tags[1..], images), id);
      if tags[0].imageId == id {
        assert images[k] in images;
      }
    }
  }

  /** The new post's images are exactly the rows just inserted. */
  lemma CreatedImagesOnly(images: seq<ImageRow>, postId: int, urls: seq<string>, first: int)
    requires forall k :: 0 <= k < |images| ==> images[k].postId < postId
    ensures ImagesOf(images + NewImages(postId, urls, first), postId) == NewImages(postId, urls, first)
  {
    ImagesOfAppend(images, NewImages(postId, urls, first), postId);
    ImagesOfNewImages(postId, urls, first);
    ImagesOfNone(images, postId);
    assert [] + NewImages(postId, urls, first) == NewImages(postId, urls, first);
  }

  /** Rows on older image ids do not change the tags of a newer one. */
  lemma TagsOfAfterOlder(tags: seq<TagRow>, added: seq<TagRow>, id: int, expected: seq<TagRow>)
    requires forall k :: 0 <= k < |tags| ==> tags[k].imageId < id
    requires TagsOf(added, id) == expected
    ensures TagsOf(tags + added, id) == expected
  {
    TagsOfAppend(tags, added, id);
    TagsOfNone(tags, id);
    assert [] + TagsOf(added, id) == TagsOf(added, id);
  }

  /** The i-th new image id carries the tag rows sent at index i. */
  lemma NewTagsOn(n: nat, parsed: Option<seq<Option<seq<TagSpec>>>>, first: int, i: nat)
    requires i < n
    ensures TagsOf(NewTags(n, parsed, first), first + i) == TagRowsOf(first + i, TagsAt(parsed, i))
  {
    NewTagsOfImage(n, parsed, first, i);
  }

  lemma {:induction false} ImagesOfNone(images: seq<ImageRow>, postId: int)
    requires forall k :: 0 <= k < |images| ==> images[k].postId < postId
    ensures ImagesOf(images, postId) == []
  {
    if images != [] {
      ImagesOfNone(images[1..], postId);
    }
  }

  lemma {:induction false} TagsOfNone(tags: seq<TagRow>, id: int)
    requires forall k :: 0 <= k < |tags| ==> tags[k].imageId < id
    ensures TagsOf(tags, id) == []
  {
    if tags != [] {
      TagsOfNone(tags[1..], id);
    }
  }

  /** What `commCreate` stores is what `commDetail` then shows for the new
      post: over tables whose keys lie below the counters, the post has
      exactly the images sent, in order, and the i-th carries exactly the
      tags sent at index i (none when no array was sent for it). */
  lemma CreatedImagesCarryTheirTags(images: seq<ImageRow>, tags: seq<TagRow>, postId: int, urls: seq<string>,
                                    parsed: Option<seq<Option<seq<TagSpec>>>>, first: int, i: int)
    requires KeysBelow(images, tags, postId, first)
    requires 0 <= i < |urls|
    ensures var imgs := ImagesOf(images + NewImages(postId, urls, first), postId);
            var shown := Assemble(imgs, TagsOn(tags + NewTags(|urls|, parsed, first), imgs));
            && |shown| == |urls|
            && shown[i].image.url == urls[i]
            && shown[i].tags == TagRowsOf(first + i, TagsAt(parsed, i))
  {
    var added := NewImages(postId, urls, first);
    var newTags := NewTags(|urls|, parsed, first);
    CreatedImagesOnly(images, postId, urls, first);
    NewTagsOn(|urls|, parsed, first, i);
    TagsOfAfterOlder(tags, newTags, first + i, TagRowsOf(first + i, TagsAt(parsed, i)));
    ShownFromParts(images + added, tags + newTags, added, postId, i,
                   first + i, urls[i], TagRowsOf(first + i, TagsAt(parsed, i)));
  }

  /** The detail view of a post whose images are `added` shows on the i-th
      of them exactly the tags naming its id. */
  lemma ShownFromParts(images: seq<ImageRow>, tags: seq<TagRow>, added: seq<ImageRow>, postId: int, i: int,
                       id: int, url: string, expected: seq<TagRow>)
    requires ImagesOf(images, postId) == added
    requires 0 <= i < |added| && added[i].imageId == id && added[i].url == url
    requires TagsOf(tags, id) == expected
    ensures var imgs := ImagesOf(images, postId);
            var shown := Assemble(imgs, TagsOn(tags, imgs));
            && |shown| == |added|
            && shown[i].image.url == url
            && shown[i].tags == expected
  {
    TagsOfTagsOn(tags, added, i);
  }

  /** The detail view of post `postId` over these tables shows the images
      sent, in order, the i-th (image id `first + i`) with exactly the tags
      sent at index i. */
  predicate ShowsAsSent(images: seq<ImageRow>, tags: seq<TagRow>, postId: int, urls: seq<string>,
                        parsed: Option<seq<Option<seq<TagSpec>>>>, first: int)
  {
    var imgs := ImagesOf(images, postId);
    var shown := Assemble(imgs, TagsOn(tags, imgs));
    && |shown| == |urls|
    && forall i :: 0 <= i < |urls| ==>
         shown[i].image.url == urls[i] && shown[i].tags == TagRowsOf(first + i, TagsAt(parsed, i))
  }

  /** Every image of a created post, as `commDetail` shows it. */
  lemma CreatedPostShown(images: seq<ImageRow>, tags: seq<TagRow>, postId: int, urls: seq<string>,
                         parsed: Option<seq<Option<seq<TagSpec>>>>, first: int)
    requires KeysBelow(images, tags, postId, first)
    ensures ShowsAsSent(images + NewImages(postId, urls, first), tags + NewTags(|urls|, parsed, first),
                        postId, urls, parsed, first)
  {
    CreatedImagesOnly(images, postId, urls, first);
    forall i | 0 <= i < |urls| {
      CreatedImagesCarryTheirTags(images, tags, postId, urls, parsed, first, i);
    }
  }

  /** `commCreate` keeps every key below the advanced counters. */
  lemma CreateKeepsKeysBelow(images: seq<ImageRow>, tags: seq<TagRow>, postId: int, urls: seq<string>,
                             parsed: Option<seq<Option<seq<TagSpec>>>>, first: int)
    requires KeysBelow(images, tags, postId, first)
    ensures KeysBelow(images + NewImages(postId, urls, first), tags + NewTags(|urls|, parsed, first),
                      postId + 1, first + |urls|)
  {
    var added := NewImages(postId, urls, first);
    var newTags := NewTags(|urls|, parsed, first);
    NewTagsBelow(|urls|, parsed, first);
    forall k | 0 <= k < |images + added|
      ensures (images + added)[k].postId < postId + 1 && (images + added)[k].imageId < first + |urls|
    {
      if k >= |images| {
        assert (images + added)[k] == added[k - |images|];
      }
    }
    forall k | 0 <= k < |tags + newTags| ensures (tags + newTags)[k].imageId < first + |urls| {
      if k >= |tags| {
        assert (tags + newTags)[k] == newTags[k - |tags|];
      }
    }
  }

  /** The tag rows inserted for `n` images sit on the new image ids. */
  lemma {:induction false} NewTagsBelow(n: nat, parsed: Option<seq<Option<seq<TagSpec>>>>, first: int)
    ensures forall k :: 0 <= k < |NewTags(n, parsed, first)| ==> first <= NewTags(n, parsed, first)[k].imageId < first + n
  {
    if n > 0 {
      NewTagsBelow(n - 1, parsed, first);
      NewTagsStep(n - 1, parsed, first);
      var a: seq<TagRow> := NewTags(n - 1, parsed, first);
      var b: seq<TagRow> := TagRowsOf(first + n - 1, TagsAt(parsed, n - 1));
      forall k | 0 <= k < |a + b| ensures first <= (a + b)[k].imageId < first + n {
        if k >= |a| {
          assert (a + b)[k] == b[k - |a|];
        }
      }
    }
  }

  /** The inner `forEach` of `commCreate`: a tag row for each tag sent for
      one image. */
  method TagRowsFor(imageId: int, specs: seq<TagSpec>) returns (group: seq<TagRow>)
    ensures group == TagRowsOf(imageId, specs)
  {
    group := [];
    var j := 0;
    while j < |specs|
      invariant 0 <= j <= |specs|
      invariant group == TagRowsOf(imageId, specs[..j])
    {
      group := group + [TagRowOf(imageId, specs[j])];
      j := j + 1;
    }
    assert specs[..j] == specs;
  }

  /** One round of the `forEach` below adds the row of image `first + i`
      after the rows already in the table. */
  lemma NewImagesStep(postId: int, urls: seq<string>, first: int, i: nat, images: seq<ImageRow>)
    requires i < |urls|
    ensures (images + NewImages(postId, urls[..i], first)) + [ImageRow(first + i, postId, urls[i])] ==
            images + NewImages(postId, urls[..i + 1], first)
  {
    var r := NewImages(postId, urls[..i], first) + [ImageRow(first + i, postId, urls[i])];
    assert |r| == i + 1;
    forall k | 0 <= k <= i
      ensures r[k] == ImageRow(first + k, postId, urls[..i + 1][k])
    {
    }
    assert r == NewImages(postId, urls[..i + 1], first);
  }

  /** ... and the tag rows sent for that image after the tag rows already
      in the table. */
  lemma NewTagsExtend(tags: seq<TagRow>, i: nat, parsed: Option<seq<Option<seq<TagSpec>>>>, first: int)
    ensures (tags + NewTags(i, parsed, first)) + TagRowsOf(first + i, TagsAt(parsed, i)) ==
            tags + NewTags(i + 1, parsed, first)
  {
    NewTagsStep(i, parsed, first);
  }

  /** The `forEach` of `commCreate` over the uploaded file names: an image
      row for each, numbered from `first`, then a tag row for each tag sent
      at the same index, appended to the image and tag tables given. */
  method InsertImagesAndTags(postId: int, urls: seq<string>, parsed: Option<seq<Option<seq<TagSpec>>>>,
                             first: int, images: seq<ImageRow>, tags: seq<TagRow>)
    returns (imgs: seq<ImageRow>, tgs: seq<TagRow>)
    ensures imgs == images + NewImages(postId, urls, first)
    ensures tgs == tags + NewTags(|urls|, parsed, first)
  {
    imgs, tgs := images, tags;
    var i := 0;
    while i < |urls|
      invariant 0 <= i <= |urls|
      invariant imgs == images + NewImages(postId, urls[..i], first)
      invariant tgs == tags + NewTags(i, parsed, first)
    {
      var imageId := first + i;
      var group := TagRowsFor(imageId, TagsAt(parsed, i));
      NewImagesStep(postId, urls, first, i, images);
      NewTagsExtend(tags, i, parsed, first);
      imgs := imgs + [ImageRow(imageId, postId, urls[i])];
      tgs := tgs + group;
      i := i + 1;
    }
    assert urls[..i] == urls;
  }

  // ---------------------------------------------------------------------
  // The board's list
  // ---------------------------------------------------------------------

  predicate Listed(posts: Table<CommPost>, images: seq<ImageRow>, id: int)
  {
    id in posts && posts[id].isDeleted == 0 && ImagesOf(images, id) != []
  }

  function ListedIds(posts: Table<CommPost>, images: seq<ImageRow>): (r: set<int>)
    ensures forall id :: id in r <==> Listed(posts, images, id)
  {
    set id | id in posts && Listed(posts, images, id)
  }

  /** The row of the list for a listed post. */
  function Item(posts: Table<CommPost>, images: seq<ImageRow>, likes: set<Like>, id: int): ListItem
    requires Listed(posts, images, id)
  {
    ListItem(id, posts[id].data.title, posts[id].data.cate, ImagesOf(images, id)[0].url, LikeCount(likes, id))
  }

  /** `commList`: the live posts that have at least one image, newest first,
      each with its first image and its like count. */
  function BoardList(posts: Table<CommPost>, images: seq<ImageRow>, likes: set<Like>, n: int): (r: seq<ListItem>)
    ensures forall i :: 0 <= i < |r| ==>
              && Listed(posts, images, r[i].id)
              && r[i].title == posts[r[i].id].data.title && r[i].cate == posts[r[i].id].data.cate
              && r[i].imageUrl == ImagesOf(images, r[i].id)[0].url
              && r[i].heart == LikeCount(likes, r[i].id)
    ensures forall i, j :: 0 <= i < j < |r| ==> r[i].id > r[j].id
    ensures forall id :: Listed(posts, images, id) && 0 <= id < n ==> exists i :: 0 <= i < |r| && r[i].id == id
  {
    var ids := KeysDescBelow(ListedIds(posts, images), n);
    var r := seq(|ids|, i requires 0 <= i < |ids| => Item(posts, images, likes, ids[i]));
    forall id | Listed(posts, images, id) && 0 <= id < n
      ensures exists i :: 0 <= i < |r| && r[i].id == id
    {
      assert id in ids;
      var i :| 0 <= i < |ids| && ids[i] == id;
      assert r[i].id == id;
    }
    r
  }

  // ---------------------------------------------------------------------
  // The handlers
  // ---------------------------------------------------------------------

  /** The community tables and their AUTO_INCREMENT counters.  `fault`
      names the statement of a handler at which the store reports an error
      (counted from 0). */
  class CommunityDb {
    var posts: Table<CommPost>
    var nextPostId: int
    var images: seq<ImageRow>
    var nextImageId: int
    var tags: seq<TagRow>
    var likes: set<Like>

    ghost predicate Valid()
      reads this
    {
      && nextPostId >= 1 && (forall k :: k in posts ==> 1 <= k < nextPostId)
      && KeysBelow(images, tags, nextPostId, nextImageId)
    }

    constructor (posts: Table<CommPost>, nextPostId: int, images: seq<ImageRow>, nextImageId: int,
                 tags: seq<TagRow>, likes: set<Like>)
      requires nextPostId >= 1 && forall k :: k in posts ==> 1 <= k < nextPostId
      requires KeysBelow(images, tags, nextPostId, nextImageId)
      ensures Valid()
      ensures this.posts == posts && this.nextPostId == nextPostId && this.images == images
      ensures this.nextImageId == nextImageId && this.tags == tags && this.likes == likes
    {
      this.posts := posts;
      this.nextPostId := nextPostId;
      this.images := images;
      this.nextImageId := nextImageId;
      this.tags := tags;
      this.likes := likes;
    }

    /** `commCreate`: inserts the post, then for each uploaded file name an
        image row, and for that image the tags sent at its index.  The image
        and tag inserts are not awaited and their errors are only logged;
        they are modelled as succeeding.  The tables it leaves are those of
        `CreatedPostShown`, so `Detail` then shows the post as sent. */
    method Create(userId: int, title: string, content: string, cate: int, imageUrls: seq<string>,
                  parsed: Option<seq<Option<seq<TagSpec>>>>, fault: Fault) returns (code: int, postId: int)
      requires Valid()
      modifies this
      ensures Valid()
      ensures code == CREATED <==> !FailsAt(fault, 0)
      ensures code != CREATED ==>
                && code == SERVER_ERROR && posts == old(posts) && nextPostId == old(nextPostId)
                && images == old(images) && nextImageId == old(nextImageId) && tags == old(tags)
      ensures code == CREATED ==>
                && postId == old(nextPostId) && postId !in old(posts)
                && posts == old(posts)[postId := Row(CommPost(userId, title, content, cate), 0)]
                && nextPostId == postId + 1
                && images == old(images) + NewImages(postId, imageUrls, old(nextImageId))
                && nextImageId == old(nextImageId) + |imageUrls|
                && tags == old(tags) + NewTags(|imageUrls|, parsed, old(nextImageId))
      ensures likes == old(likes)
    {
      if FailsAt(fault, 0) {
        return SERVER_ERROR, 0;
      }
      postId := nextPostId;
      posts := posts[postId := Row(CommPost(userId, title, content, cate), 0)];
      nextPostId := nextPostId + 1;
      var first := nextImageId;
      var imgs, tgs := InsertImagesAndTags(postId, imageUrls, parsed, first, images, tags);
      CreateKeepsKeysBelow(images, tags, postId, imageUrls, parsed, first);
      images := imgs;
      tags := tgs;
      nextImageId := first + |imageUrls|;
      code := CREATED;
    }

    /** `commList`. */
    method List(fault: Fault) returns (code: int, items: seq<ListItem>)
      requires Valid()
      ensures code == OK <==> !FailsAt(fault, 0)
      ensures code != OK ==> code == SERVER_ERROR && items == []
      ensures code == OK ==> items == BoardList(posts, images, likes, nextPostId)
      ensures code == OK ==> forall id :: Listed(posts, images, id) ==> exists i :: 0 <= i < |items| && items[i].id == id
    {
      if FailsAt(fault, 0) {
        return SERVER_ERROR, [];
      }
      return OK, BoardList(posts, images, likes, nextPostId);
    }

    /** `commDetail`: a live post with its like count, and its images each
        with the tags placed on it; a post without images answers
        `images: []` before the tag query. */
    method Detail(id: int, fault: Fault) returns (code: int, post: Option<CommPost>, likeCount: nat,
                                                  shown: seq<ImageWithTags>)
      requires Valid()
      ensures code == NOT_FOUND <==> !FailsAt(fault, 0) && (id !in posts || posts[id].isDeleted != 0)
      ensures code == OK <==>
                && !FailsBefore(fault, 2) && id in posts && posts[id].isDeleted == 0
                && (ImagesOf(images, id) != [] ==> !FailsAt(fault, 2))
      ensures code != OK && code != NOT_FOUND ==> code == SERVER_ERROR
      ensures post.Some? <==> code == OK
      ensures code == OK ==>
                && post.value == posts[id].data
                && likeCount == LikeCount(likes, id)
                && shown == Assemble(ImagesOf(images, id), TagsOn(tags, ImagesOf(images, id)))
    {
      if FailsAt(fault, 0) {
        return SERVER_ERROR, None, 0, [];
      }
      if id !in posts || posts[id].isDeleted != 0 {
        return NOT_FOUND, None, 0, [];
      }
      if FailsAt(fault, 1) {
        return SERVER_ERROR, None, 0, [];
      }
      var imgs := ImagesOf(images, id);
      if imgs == [] {
        return OK, Some(posts[id].data), LikeCount(likes, id), [];
      }
      if FailsAt(fault, 2) {
        return SERVER_ERROR, None, 0, [];
      }
      return OK, Some(posts[id].data), LikeCount(likes, id), Assemble(imgs, TagsOn(tags, imgs));
    }

    /** `commUpdate`: changes the three columns of a live post; the answer is
        200 whether or not a row matched. */
    method Update(id: int, title: string, content: string, cate: int, fault: Fault) returns (code: int)
      requires Valid()
      modifies this`posts
      ensures Valid()
      ensures code == (if FailsAt(fault, 0) then SERVER_ERROR else OK)
      ensures !FailsAt(fault, 0) && id in old(posts) && old(posts)[id].isDeleted == 0 ==>
                posts == old(posts)[id := Row(CommPost(old(posts)[id].data.userId, title, content, cate), 0)]
      ensures FailsAt(fault, 0) || id !in old(posts) || old(posts)[id].isDeleted != 0 ==> posts == old(posts)
    {
      if FailsAt(fault, 0) {
        return SERVER_ERROR;
      }
      if id in posts && posts[id].isDeleted == 0 {
        posts := posts[id := Row(posts[id].data.(title := title, content := content, cate := cate), 0)];
      }
      return OK;
    }

    /** `commDelete`: flags the row with that key, deleted or not, and answers
        200 whether or not a row matched. */
    method Delete(id: int, fault: Fault) returns (code: int)
      requires Valid()
      modifies this`posts
      ensures Valid()
      ensures code == (if FailsAt(fault, 0) then SERVER_ERROR else OK)
      ensures posts == if FailsAt(fault, 0) then old(posts) else UnguardedSoftDelete(old(posts), id).0
    {
      if FailsAt(fault, 0) {
        return SERVER_ERROR;
      }
      posts := UnguardedSoftDelete(posts, id).0;
      return OK;
    }

    /** The effective `getLikeStatus` (the second export of that name
        replaces the first): the post's like count, and whether this user
        likes it.  A missing `user_id` matches no row. */
    method GetLikeStatus(postId: int, userId: Option<int>, fault: Fault)
      returns (code: int, likeCount: nat, isLiked: bool)
      ensures code == OK <==> !FailsBefore(fault, 2)
      ensures code != OK ==> code == SERVER_ERROR && likeCount == 0 && !isLiked
      ensures code == OK ==>
                && likeCount == LikeCount(likes, postId)
                && (isLiked <==> userId.Some? && Like(postId, userId.value) in likes)
    {
      if FailsAt(fault, 0) || FailsAt(fault, 1) {
        return SERVER_ERROR, 0, false;
      }
      likeCount := LikeCount(likes, postId);
      isLiked := userId.Some? && Like(postId, userId.value) in likes;
      code := OK;
    }

    /** `toggleLike`: the check, then the delete or the insert. */
    method ToggleLike(postId: int, userId: int, fault: Fault) returns (code: int, liked: bool)
      modifies this`likes
      ensures code == OK <==> !FailsBefore(fault, 2)
      ensures code != OK ==> code == SERVER_ERROR && likes == old(likes)
      ensures code == OK ==> (likes, liked) == Toggle(old(likes), Like(postId, userId))
    {
      if FailsAt(fault, 0) || FailsAt(fault, 1) {
        return SERVER_ERROR, false;
      }
      var r := Toggle(likes, Like(postId, userId));
      likes := r.0;
      return OK, r.1;
    }
  }
}
