/** The blog: posts with their category and tag links, categories and tags. Every slug is unique
    within its table, which the service itself checks before writing. */
module Posts {
  import opened Wrappers
  import Strings

  const PublishedStatus: string := "published"

  // ----- the post slug normaliser -----

  /** `s.Replace(c.ToString(), rep)`: every occurrence of the character `c` becomes `rep`. */
  function ReplaceChar(s: string, c: char, rep: string): (r: string)
    ensures c !in rep ==> c !in r
    ensures forall d :: d in r ==> d in s || d in rep
  {
    if s == [] then ""
    else (if s[0] == c then rep else [s[0]]) + ReplaceChar(s[1..], c, rep)
  }

  /** GenerateSlug: lower case, spaces to '-', '&' to "and", and '?', '!', ',' and '.' dropped. */
  function GenerateSlug(text: string): string {
    var s := Strings.Lower(text);
    var s := ReplaceChar(s, ' ', "-");
    var s := ReplaceChar(s, '&', "and");
    var s := ReplaceChar(s, '?', "");
    var s := ReplaceChar(s, '!', "");
    var s := ReplaceChar(s, ',', "");
    ReplaceChar(s, '.', "")
  }

  /** What a single character of the title becomes in the slug. */
  function SlugImage(c: char): string {
    var l := Strings.LowerChar(c);
    if l == ' ' then "-"
    else if l == '&' then "and"
    else if l == '?' || l == '!' || l == ',' || l == '.' then ""
    else [l]
  }

  /** The slug as a character-by-character translation of the title. */
  function SlugByChar(text: string): string {
    if text == [] then "" else SlugImage(text[0]) + SlugByChar(text[1..])
  }

  predicate IsRemoved(c: char) { c == ' ' || c == '&' || c == '?' || c == '!' || c == ',' || c == '.' }

  lemma {:induction false} ReplaceCharAppend(a: string, b: string, c: char, rep: string)
    ensures ReplaceChar(a + b, c, rep) == ReplaceChar(a, c, rep) + ReplaceChar(b, c, rep)
  {
    if a == [] {
      assert a + b == b;
    } else {
      assert (a + b)[0] == a[0];
      assert (a + b)[1..] == a[1..] + b;
      ReplaceCharAppend(a[1..], b, c, rep);
      var h := if a[0] == c then rep else [a[0]];
      assert ReplaceChar(a + b, c, rep) == h + ReplaceChar(a[1..] + b, c, rep);
      assert ReplaceChar(a, c, rep) == h + ReplaceChar(a[1..], c, rep);
    }
  }

  lemma ReplaceCharSingle(x: char, c: char, rep: string)
    ensures ReplaceChar([x], c, rep) == if x == c then rep else [x]
  {
    assert [x][1..] == [];
  }

  lemma {:induction false} ReplaceCharFree(s: string, c: char, rep: string)
    requires c !in s
    ensures ReplaceChar(s, c, rep) == s
  {
    if s != [] {
      assert s[0] in s;
      ReplaceCharFree(s[1..], c, rep);
      assert [s[0]] + s[1..] == s;
    }
  }

  /** The replace chain applied to the image of one character. */
  function Chain(s: string): string {
    ReplaceChar(ReplaceChar(ReplaceChar(ReplaceChar(ReplaceChar(ReplaceChar(s, ' ', "-"), '&', "and"), '?', ""), '!', ""), ',', ""), '.', "")
  }

  lemma ChainAppend(a: string, b: string)
    ensures Chain(a + b) == Chain(a) + Chain(b)
  {
    var a1, b1 := ReplaceChar(a, ' ', "-"), ReplaceChar(b, ' ', "-");
    ReplaceCharAppend(a, b, ' ', "-");
    var a2, b2 := ReplaceChar(a1, '&', "and"), ReplaceChar(b1, '&', "and");
    ReplaceCharAppend(a1, b1, '&', "and");
    var a3, b3 := ReplaceChar(a2, '?', ""), ReplaceChar(b2, '?', "");
    ReplaceCharAppend(a2, b2, '?', "");
    var a4, b4 := ReplaceChar(a3, '!', ""), ReplaceChar(b3, '!', "");
    ReplaceCharAppend(a3, b3, '!', "");
    var a5, b5 := ReplaceChar(a4, ',', ""), ReplaceChar(b4, ',', "");
    ReplaceCharAppend(a4, b4, ',', "");
    ReplaceCharAppend(a5, b5, '.', "");
  }

  /** The tail of the chain once the space is gone. */
  function Chain2(s: string): string {
    ReplaceChar(ReplaceChar(ReplaceChar(ReplaceChar(ReplaceChar(s, '&', "and"), '?', ""), '!', ""), ',', ""), '.', "")
  }

  function Chain3(s: string): string {
    ReplaceChar(ReplaceChar(ReplaceChar(ReplaceChar(s, '?', ""), '!', ""), ',', ""), '.', "")
  }

  lemma Chain3Free(s: string)
    requires '?' !in s && '!' !in s && ',' !in s && '.' !in s
    ensures Chain3(s) == s
  {
    ReplaceCharFree(s, '?', "");
    ReplaceCharFree(s, '!', "");
    ReplaceCharFree(s, ',', "");
    ReplaceCharFree(s, '.', "");
  }

  lemma Chain3Single(x: char)
    requires x == '?' || x == '!' || x == ',' || x == '.'
    ensures Chain3([x]) == ""
  {
    ReplaceCharSingle(x, '?', "");
    if x != '?' {
      ReplaceCharSingle(x, '!', "");
      if x != '!' {
        ReplaceCharSingle(x, ',', "");
        if x != ',' {
          ReplaceCharSingle(x, '.', "");
        }
      }
    }
  }

  lemma ChainOne(c: char)
    ensures Chain([Strings.LowerChar(c)]) == SlugImage(c)
  {
    var l := Strings.LowerChar(c);
    assert Chain([l]) == Chain2(ReplaceChar([l], ' ', "-"));
    ReplaceCharSingle(l, ' ', "-");
    if l == ' ' {
      ReplaceCharFree("-", '&', "and");
      Chain3Free("-");
    } else {
      assert Chain2([l]) == Chain3(ReplaceChar([l], '&', "and"));
      ReplaceCharSingle(l, '&', "and");
      if l == '&' {
        Chain3Free("and");
      } else if l == '?' || l == '!' || l == ',' || l == '.' {
        Chain3Single(l);
      } else {
        Chain3Free([l]);
      }
    }
  }

  lemma {:induction false} ChainLower(text: string)
    ensures Chain(Strings.Lower(text)) == SlugByChar(text)
  {
    if text != [] {
      var l := Strings.Lower(text);
      assert l == [Strings.LowerChar(text[0])] + Strings.Lower(text[1..]);
      ChainAppend([Strings.LowerChar(text[0])], Strings.Lower(text[1..]));
      ChainOne(text[0]);
      ChainLower(text[1..]);
    }
  }

  /** The replace chain is a per-character translation: each character is lower-cased, a space
      becomes '-', '&' becomes "and", '?', '!', ',' and '.' vanish, and every other character is
      kept. */
  lemma SlugIsCharTranslation(text: string)
    ensures GenerateSlug(text) == SlugByChar(text)
  {
    ChainLower(text);
  }

  lemma {:induction false} SlugByCharClean(text: string)
    ensures forall c :: c in SlugByChar(text) ==> !IsRemoved(c) && !Strings.IsUpperAscii(c)
  {
    if text != [] {
      SlugByCharClean(text[1..]);
    }
  }

  /** A slug holds no space, '&', '?', '!', ',', '.' or upper-case ASCII letter. */
  lemma SlugClean(text: string)
    ensures forall c :: c in GenerateSlug(text) ==> !IsRemoved(c) && !Strings.IsUpperAscii(c)
  {
    SlugIsCharTranslation(text);
    SlugByCharClean(text);
  }

  lemma {:induction false} SlugByCharFixed(s: string)
    requires forall c :: c in s ==> !IsRemoved(c) && !Strings.IsUpperAscii(c)
    ensures SlugByChar(s) == s
  {
    if s != [] {
      assert s[0] in s;
      SlugByCharFixed(s[1..]);
      assert [s[0]] + s[1..] == s;
    }
  }

  /** Normalising a slug again changes nothing. */
  lemma SlugIdempotent(text: string)
    ensures GenerateSlug(GenerateSlug(text)) == GenerateSlug(text)
  {
    var s := GenerateSlug(text);
    SlugClean(text);
    SlugIsCharTranslation(s);
    SlugByCharFixed(s);
  }

  // ----- entities -----

  datatype Post = Post(
    title: string,
    slug: string,
    content: Option<string>,
    excerpt: Option<string>,
    thumbnailId: Option<int>,
    status: string,
    userId: int,
    publishedAt: Option<int>,
    createdAt: int,
    updatedAt: int)

  datatype PostRequest = PostRequest(
    title: string,
    slug: Option<string>,
    content: Option<string>,
    excerpt: Option<string>,
    thumbnailId: Option<int>,
    status: string,
    categoryIds: Option<seq<int>>,
    tagIds: Option<seq<int>>)

  datatype Category = Category(name: string, slug: string, description: Option<string>, createdAt: int)

  datatype Tag = Tag(name: string, slug: string, createdAt: int)

  /** A row of a link table (post_categories or post_tags): (post id, linked id). */
  type Link = (int, int)

  /** The slug a request asks for: its own, else the normalised title or name. */
  function RequestedSlug(slug: Option<string>, name: string): string {
    if slug.Some? then slug.value else GenerateSlug(name)
  }

  // ----- link tables -----

  /** The rows the add loop writes for a post: one per listed id, in list order; a null list
      writes none. */
  function LinksFor(postId: int, ids: Option<seq<int>>): (r: seq<Link>)
    ensures |r| == if ids.Some? then |ids.value| else 0
    ensures forall i :: 0 <= i < |r| ==> r[i] == (postId, ids.value[i])
  {
    if ids.None? then [] else seq(|ids.value|, i requires 0 <= i < |ids.value| => (postId, ids.value[i]))
  }

  /** `RemoveRange(post.PostCategories)`: the rows of every other post. */
  function DropPost(links: seq<Link>, postId: int): (r: seq<Link>)
    ensures forall i :: 0 <= i < |r| ==> r[i].0 != postId
    ensures forall l :: l in r <==> l in links && l.0 != postId
  {
    if links == [] then []
    else (if links[0].0 == postId then [] else [links[0]]) + DropPost(links[1..], postId)
  }

  /** The cascade of deleting a category or tag: the rows that point at it go, the rest stay in
      order. */
  function DropTarget(links: seq<Link>, targetId: int): (r: seq<Link>)
    ensures forall l :: l in r <==> l in links && l.1 != targetId
  {
    if links == [] then []
    else (if links[0].1 == targetId then [] else [links[0]]) + DropTarget(links[1..], targetId)
  }

  /** The ids linked to a post, in row order. */
  function LinkedTo(links: seq<Link>, postId: int): seq<int> {
    if links == [] then []
    else (if links[0].0 == postId then [links[0].1] else []) + LinkedTo(links[1..], postId)
  }

  lemma {:induction false} LinkedToAppend(a: seq<Link>, b: seq<Link>, postId: int)
    ensures LinkedTo(a + b, postId) == LinkedTo(a, postId) + LinkedTo(b, postId)
  {
    if a == [] {
      assert a + b == b;
    } else {
      var h := if a[0].0 == postId then [a[0].1] else [];
      assert (a + b)[0] == a[0];
      assert (a + b)[1..] == a[1..] + b;
      LinkedToAppend(a[1..], b, postId);
      var x, y := LinkedTo(a[1..], postId), LinkedTo(b, postId);
      assert LinkedTo(a + b, postId) == h + (x + y);
      assert LinkedTo(a, postId) == h + x;
      assert h + (x + y) == (h + x) + y;
    }
  }

  lemma {:induction false} LinkedToDrop(links: seq<Link>, postId: int, q: int)
    ensures LinkedTo(DropPost(links, postId), q) == if q == postId then [] else LinkedTo(links, q)
  {
    if links != [] {
      LinkedToDrop(links[1..], postId, q);
      var head := if links[0].0 == postId then [] else [links[0]];
      LinkedToAppend(head, DropPost(links[1..], postId), q);
    }
  }

  lemma {:induction false} LinkedToFor(postId: int, ids: Option<seq<int>>, q: int)
    ensures LinkedTo(LinksFor(postId, ids), q) == if q == postId && ids.Some? then ids.value else []
    decreases if ids.Some? then |ids.value| else 0
  {
    if ids.Some? && ids.value != [] {
      var rest := Some(ids.value[1..]);
      LinkedToFor(postId, rest, q);
      assert LinksFor(postId, ids) == [(postId, ids.value[0])] + LinksFor(postId, rest);
      assert ids.value == [ids.value[0]] + ids.value[1..];
    }
  }

  /** Replacing a post's links: the post is linked to exactly the listed ids, in list order (none
      for a null or empty list), and every other post keeps its links. */
  lemma ReplaceLinksSpec(links: seq<Link>, postId: int, ids: Option<seq<int>>, q: int)
    ensures LinkedTo(DropPost(links, postId) + LinksFor(postId, ids), q) ==
              if q == postId then (if ids.Some? then ids.value else []) else LinkedTo(links, q)
  {
    LinkedToAppend(DropPost(links, postId), LinksFor(postId, ids), q);
    LinkedToDrop(links, postId, q);
    LinkedToFor(postId, ids, q);
  }

  /** The `foreach` that adds one link row per id. */
  method AppendLinks(links: seq<Link>, postId: int, ids: Option<seq<int>>) returns (r: seq<Link>)
    ensures r == links + LinksFor(postId, ids)
  {
    r := links;
    if ids.Some? && |ids.value| > 0 {
      var list := ids.value;
      for i := 0 to |list|
        invariant r == links + LinksFor(postId, Some(list[..i]))
      {
        assert LinksFor(postId, Some(list[..i + 1])) == LinksFor(postId, Some(list[..i])) + [(postId, list[i])];
        r := r + [(postId, list[i])];
      }
      assert list[..|list|] == list;
    }
  }

  /** No two posts, categories or tags of the same table share a slug. */
  predicate PostSlugsUnique(posts: map<int, Post>) {
    forall a, b | a in posts && b in posts && a != b :: posts[a].slug != posts[b].slug
  }

  predicate CategorySlugsUnique(categories: map<int, Category>) {
    forall a, b | a in categories && b in categories && a != b :: categories[a].slug != categories[b].slug
  }

  predicate TagSlugsUnique(tags: map<int, Tag>) {
    forall a, b | a in tags && b in tags && a != b :: tags[a].slug != tags[b].slug
  }

  predicate PostSlugTaken(posts: map<int, Post>, slug: string) {
    exists id | id in posts :: posts[id].slug == slug
  }

  predicate CategorySlugTaken(categories: map<int, Category>, slug: string) {
    exists id | id in categories :: categories[id].slug == slug
  }

  predicate TagSlugTaken(tags: map<int, Tag>, slug: string) {
    exists id | id in tags :: tags[id].slug == slug
  }

  /** The post an update writes: every request field, and a publication time that is set on the
      first update to "published" and kept ever after. */
  function Updated(p: Post, req: PostRequest, slug: string, now: int): (r: Post)
    ensures p.publishedAt.Some? ==> r.publishedAt == p.publishedAt
    ensures req.status == PublishedStatus ==> r.publishedAt.Some?
    ensures req.status != PublishedStatus ==> r.publishedAt == p.publishedAt
    ensures r.createdAt == p.createdAt && r.userId == p.userId
  {
    p.(title := req.title, slug := slug, content := req.content, excerpt := req.excerpt,
       thumbnailId := req.thumbnailId, status := req.status,
       publishedAt := if req.status == PublishedStatus && p.publishedAt.None? then Some(now) else p.publishedAt,
       updatedAt := now)
  }

  class PostService {
    var posts: map<int, Post>
    var categories: map<int, Category>
    var tags: map<int, Tag>
    var postCategories: seq<Link>
    var postTags: seq<Link>
    var nextPostId: int
    var nextCategoryId: int
    var nextTagId: int

    ghost predicate Valid()
      reads this
    {
      && PostSlugsUnique(posts)
      && CategorySlugsUnique(categories)
      && TagSlugsUnique(tags)
      && (forall id | id in posts :: id < nextPostId)
      && (forall id | id in categories :: id < nextCategoryId)
      && (forall id | id in tags :: id < nextTagId)
    }

    constructor ()
      ensures Valid()
      ensures posts == map[] && categories == map[] && tags == map[]
      ensures postCategories == [] && postTags == []
    {
      posts, categories, tags := map[], map[], map[];
      postCategories, postTags := [], [];
      nextPostId, nextCategoryId, nextTagId := 1, 1, 1;
    }

    /** CreatePostAsync: the requested slug must be new (no suffix is ever added); the post is
        published at `now` exactly when its status is "published"; one link row is written per
        listed category and tag. */
    method CreatePost(userId: int, req: PostRequest, now: int) returns (r: Result<int>)
      requires Valid()
      modifies this
      ensures Valid()
      ensures var slug := RequestedSlug(req.slug, req.title);
              if PostSlugTaken(old(posts), slug) then
                r == Err(InvalidOperation) && unchanged(this)
              else
                && r == Ok(old(nextPostId))
                && posts == old(posts)[r.value := Post(req.title, slug, req.content, req.excerpt, req.thumbnailId,
                                                        req.status, userId,
                                                        if req.status == PublishedStatus then Some(now) else None,
                                                        now, now)]
                && postCategories == old(postCategories) + LinksFor(r.value, req.categoryIds)
                && postTags == old(postTags) + LinksFor(r.value, req.tagIds)
                && categories == old(categories) && tags == old(tags)
                && nextPostId == old(nextPostId) + 1
                && nextCategoryId == old(nextCategoryId) && nextTagId == old(nextTagId)
    {
      var slug := RequestedSlug(req.slug, req.title);
      if PostSlugTaken(posts, slug) {
        return Err(InvalidOperation);
      }
      var id := nextPostId;
      posts := posts[id := Post(req.title, slug, req.content, req.excerpt, req.thumbnailId, req.status, userId,
                                if req.status == PublishedStatus then Some(now) else None, now, now)];
      nextPostId := nextPostId + 1;
      postCategories := AppendLinks(postCategories, id, req.categoryIds);
      postTags := AppendLinks(postTags, id, req.tagIds);
      r := Ok(id);
    }

    /** UpdatePostAsync: the slug is re-checked only when it changes; all fields are written; the
        post's links are replaced by the request's lists. */
    method UpdatePost(id: int, req: PostRequest, now: int) returns (r: Outcome)
      requires Valid()
      modifies this
      ensures Valid()
      ensures id !in old(posts) ==> r == Fail(NotFound) && unchanged(this)
      ensures id in old(posts) ==>
                var slug := RequestedSlug(req.slug, req.title);
                if slug != old(posts)[id].slug && PostSlugTaken(old(posts), slug) then
                  r == Fail(InvalidOperation) && unchanged(this)
                else
                  && r == Pass
                  && posts == old(posts)[id := Updated(old(posts)[id], req, slug, now)]
                  && postCategories == DropPost(old(postCategories), id) + LinksFor(id, req.categoryIds)
                  && postTags == DropPost(old(postTags), id) + LinksFor(id, req.tagIds)
                  && categories == old(categories) && tags == old(tags)
                  && nextPostId == old(nextPostId)
                  && nextCategoryId == old(nextCategoryId) && nextTagId == old(nextTagId)
    {
      if id !in posts {
        return Fail(NotFound);
      }
      var slug := RequestedSlug(req.slug, req.title);
      if slug != posts[id].slug && PostSlugTaken(posts, slug) {
        return Fail(InvalidOperation);
      }
      posts := posts[id := Updated(posts[id], req, slug, now)];
      postCategories := AppendLinks(DropPost(postCategories, id), id, req.categoryIds);
      postTags := AppendLinks(DropPost(postTags, id), id, req.tagIds);
      r := Pass;
    }

    method DeletePost(id: int) returns (r: Outcome)
      requires Valid()
      modifies this
      ensures Valid()
      ensures id !in old(posts) ==> r == Fail(NotFound) && unchanged(this)
      ensures id in old(posts) ==>
                && r == Pass && posts == old(posts) - {id}
                && categories == old(categories) && tags == old(tags)
                && postCategories == DropPost(old(postCategories), id)
                && postTags == DropPost(old(postTags), id)
                && nextPostId == old(nextPostId)
                && nextCategoryId == old(nextCategoryId) && nextTagId == old(nextTagId)
    {
      if id !in posts {
        return Fail(NotFound);
      }
      posts := posts - {id};
      postCategories := DropPost(postCategories, id);
      postTags := DropPost(postTags, id);
      r := Pass;
    }

    method CreateCategory(name: string, slug: Option<string>, description: Option<string>, now: int)
      returns (r: Result<int>)
      requires Valid()
      modifies this
      ensures Valid()
      ensures var s := RequestedSlug(slug, name);
              if CategorySlugTaken(old(categories), s) then
                r == Err(InvalidOperation) && unchanged(this)
              else
                && r == Ok(old(nextCategoryId))
                && categories == old(categories)[r.value := Category(name, s, description, now)]
                && posts == old(posts) && tags == old(tags)
                && postCategories == old(postCategories) && postTags == old(postTags)
                && nextPostId == old(nextPostId)
                && nextCategoryId == old(nextCategoryId) + 1 && nextTagId == old(nextTagId)
    {
      var s := RequestedSlug(slug, name);
      if CategorySlugTaken(categories, s) {
        return Err(InvalidOperation);
      }
      var id := nextCategoryId;
      categories := categories[id := Category(name, s, description, now)];
      nextCategoryId := nextCategoryId + 1;
      r := Ok(id);
    }

    method UpdateCategory(id: int, name: string, slug: Option<string>, description: Option<string>)
      returns (r: Outcome)
      requires Valid()
      modifies this
      ensures Valid()
      ensures id !in old(categories) ==> r == Fail(NotFound) && unchanged(this)
      ensures id in old(categories) ==>
                var s := RequestedSlug(slug, name);
                if s != old(categories)[id].slug && CategorySlugTaken(old(categories), s) then
                  r == Fail(InvalidOperation) && unchanged(this)
                else
                  && r == Pass
                  && categories == old(categories)[id := old(categories)[id].(name := name, slug := s, description := description)]
                  && posts == old(posts) && tags == old(tags)
                  && postCategories == old(postCategories) && postTags == old(postTags)
                  && nextPostId == old(nextPostId)
                  && nextCategoryId == old(nextCategoryId) && nextTagId == old(nextTagId)
    {
      if id !in categories {
        return Fail(NotFound);
      }
      var s := RequestedSlug(slug, name);
      if s != categories[id].slug && CategorySlugTaken(categories, s) {
        return Fail(InvalidOperation);
      }
      categories := categories[id := categories[id].(name := name, slug := s, description := description)];
      r := Pass;
    }

    method DeleteCategory(id: int) returns (r: Outcome)
      requires Valid()
      modifies this
      ensures Valid()
      ensures id !in old(categories) ==> r == Fail(NotFound) && unchanged(this)
      ensures id in old(categories) ==>
                && r == Pass && categories == old(categories) - {id}
                && posts == old(posts) && tags == old(tags)
                && postCategories == DropTarget(old(postCategories), id) && postTags == old(postTags)
                && nextPostId == old(nextPostId)
                && nextCategoryId == old(nextCategoryId) && nextTagId == old(nextTagId)
    {
      if id !in categories {
        return Fail(NotFound);
      }
      categories := categories - {id};
      postCategories := DropTarget(postCategories, id);
      r := Pass;
    }

    method CreateTag(name: string, slug: Option<string>, now: int) returns (r: Result<int>)
      requires Valid()
      modifies this
      ensures Valid()
      ensures var s := RequestedSlug(slug, name);
              if TagSlugTaken(old(tags), s) then
                r == Err(InvalidOperation) && unchanged(this)
              else
                && r == Ok(old(nextTagId))
                && tags == old(tags)[r.value := Tag(name, s, now)]
                && posts == old(posts) && categories == old(categories)
                && postCategories == old(postCategories) && postTags == old(postTags)
                && nextPostId == old(nextPostId)
                && nextCategoryId == old(nextCategoryId) && nextTagId == old(nextTagId) + 1
    {
      var s := RequestedSlug(slug, name);
      if TagSlugTaken(tags, s) {
        return Err(InvalidOperation);
      }
      var id := nextTagId;
      tags := tags[id := Tag(name, s, now)];
      nextTagId := nextTagId + 1;
      r := Ok(id);
    }

    method UpdateTag(id: int, name: string, slug: Option<string>) returns (r: Outcome)
      requires Valid()
      modifies this
      ensures Valid()
      ensures id !in old(tags) ==> r == Fail(NotFound) && unchanged(this)
      ensures id in old(tags) ==>
                var s := RequestedSlug(slug, name);
                if s != old(tags)[id].slug && TagSlugTaken(old(tags), s) then
                  r == Fail(InvalidOperation) && unchanged(this)
                else
                  && r == Pass
                  && tags == old(tags)[id := old(tags)[id].(name := name, slug := s)]
                  && posts == old(posts) && categories == old(categories)
                  && postCategories == old(postCategories) && postTags == old(postTags)
                  && nextPostId == old(nextPostId)
                  && nextCategoryId == old(nextCategoryId) && nextTagId == old(nextTagId)
    {
      if id !in tags {
        return Fail(NotFound);
      }
      var s := RequestedSlug(slug, name);
      if s != tags[id].slug && TagSlugTaken(tags, s) {
        return Fail(InvalidOperation);
      }
      tags := tags[id := tags[id].(name := name, slug := s)];
      r := Pass;
    }

    method DeleteTag(id: int) returns (r: Outcome)
      requires Valid()
      modifies this
      ensures Valid()
      ensures id !in old(tags) ==> r == Fail(NotFound) && unchanged(this)
      ensures id in old(tags) ==>
                && r == Pass && tags == old(tags) - {id}
                && posts == old(posts) && categories == old(categories)
                && postCategories == old(postCategories) && postTags == DropTarget(old(postTags), id)
                && nextPostId == old(nextPostId)
                && nextCategoryId == old(nextCategoryId) && nextTagId == old(nextTagId)
    {
      if id !in tags {
        return Fail(NotFound);
      }
      tags := tags - {id};
      postTags := DropTarget(postTags, id);
      r := Pass;
    }
  }
}
