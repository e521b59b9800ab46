/**
 * The blog-post handlers of the backend: the paged post listing, and the
 * slug and ownership checks of create, update and delete.
 *
 * The post collection is a sequence in insertion order with ids that increase
 * with creation order, like the comment collection. Image resizing, the image
 * file on disk and the revalidation requests to the website are not part of
 * this model.
 */
module BlogPosts {
  import opened Options
  import opened Errors

  /**
   * The featured image URL, `${SERVER_URL}/uploads/featured-images/${postId}.png`,
   * followed by `?lastupdated=${time}` once an update replaced the image.
   */
  datatype ImageUrl = ImageUrl(postId: int, lastUpdated: Option<int>)

  datatype BlogPost = BlogPost(
    id: int,
    slug: string,
    title: string,
    summary: string,
    body: string,
    featuredImageUrl: ImageUrl,
    authorId: int)

  /** The body of the `getBlogPosts` response. */
  datatype PostsPage = PostsPage(blogPosts: seq<BlogPost>, page: int, totalPages: int)

  const PostsPageSize: nat := 6

  const SlugTaken := HttpError(409, "Slug already taken. Please choose a different one")
  const PostNotFound := HttpError(404, "No blog post found for that ID")

  predicate PostIdsIncreasing(posts: seq<BlogPost>)
  {
    forall i, j :: 0 <= i < j < |posts| ==> posts[i].id < posts[j].id
  }

  predicate SlugsUnique(posts: seq<BlogPost>)
  {
    forall i, j :: 0 <= i < j < |posts| ==> posts[i].slug != posts[j].slug
  }

  /** `findOne({ slug })`. */
  function FindBySlug(posts: seq<BlogPost>, slug: string): (r: Option<nat>)
    ensures r.Some? ==> r.value < |posts| && posts[r.value].slug == slug
    ensures r.None? <==> forall i :: 0 <= i < |posts| ==> posts[i].slug != slug
  {
    if posts == [] then None
    else if posts[0].slug == slug then Some(0)
    else match FindBySlug(posts[1..], slug)
      case None => None
      case Some(k) => Some(k + 1)
  }

  /** `findById(id)`. */
  function FindPost(posts: seq<BlogPost>, id: int): (r: Option<nat>)
    ensures r.Some? ==> r.value < |posts| && posts[r.value].id == id
    ensures r.None? <==> forall i :: 0 <= i < |posts| ==> posts[i].id != id
  {
    if posts == [] then None
    else if posts[0].id == id then Some(0)
    else match FindPost(posts[1..], id)
      case None => None
      case Some(k) => Some(k + 1)
  }

  /** The slug belongs to a post other than `blogPostId` (the 409 condition of `updateBlogPost`). */
  predicate SlugTakenByOther(posts: seq<BlogPost>, slug: string, blogPostId: int)
    ensures SlugTakenByOther(posts, slug, blogPostId) ==>
      exists i :: 0 <= i < |posts| && posts[i].slug == slug && posts[i].id != blogPostId
    ensures SlugsUnique(posts) && (exists i :: 0 <= i < |posts| && posts[i].slug == slug && posts[i].id != blogPostId) ==>
      SlugTakenByOther(posts, slug, blogPostId)
  {
    var found := FindBySlug(posts, slug);
    found.Some? && posts[found.value].id != blogPostId
  }

  // ---------------------------------------------------------------------------
  // Listing

  predicate MatchesAuthor(p: BlogPost, authorId: Option<int>)
  {
    authorId.None? || p.authorId == authorId.value
  }

  /** `find(filter).sort({ _id: -1 })`, the filter being `{ author }` only when an author is given. */
  function PostsNewestFirst(posts: seq<BlogPost>, authorId: Option<int>): (r: seq<BlogPost>)
    ensures forall p :: p in r <==> p in posts && MatchesAuthor(p, authorId)
    ensures |r| <= |posts|
  {
    if posts == [] then []
    else
      var last := posts[|posts| - 1];
      assert posts == posts[..|posts| - 1] + [last];
      (if MatchesAuthor(last, authorId) then [last] else [])
      + PostsNewestFirst(posts[..|posts| - 1], authorId)
  }

  /** `countDocuments(filter)`. */
  function CountPosts(posts: seq<BlogPost>, authorId: Option<int>): (r: nat)
    ensures r <= |posts|
    ensures authorId.None? ==> r == |posts|
  {
    if posts == [] then 0
    else (if MatchesAuthor(posts[0], authorId) then 1 else 0) + CountPosts(posts[1..], authorId)
  }

  /** `Math.ceil(total / pageSize)` on whole numbers. */
  function CeilDiv(total: nat, pageSize: nat): (r: nat)
    requires pageSize > 0
    ensures (r - 1) * pageSize < total <= r * pageSize || (total == 0 && r == 0)
  {
    (total + pageSize - 1) / pageSize
  }

  /** `getBlogPosts`: page `page` (from 1) of the matching posts, newest first, six per page. */
  function GetBlogPosts(posts: seq<BlogPost>, authorId: Option<int>, page: int): (r: PostsPage)
    requires page >= 1
    ensures r.page == page
    ensures |r.blogPosts| <= PostsPageSize
    ensures var total := CountPosts(posts, authorId);
      (r.totalPages - 1) * PostsPageSize < total <= r.totalPages * PostsPageSize || (total == 0 && r.totalPages == 0)
  {
    var rows := PostsNewestFirst(posts, authorId);
    var skip := (page - 1) * PostsPageSize;
    var from := if skip <= |rows| then skip else |rows|;
    var to := if from + PostsPageSize <= |rows| then from + PostsPageSize else |rows|;
    PostsPage(rows[from..to], page, CeilDiv(CountPosts(posts, authorId), PostsPageSize))
  }

  lemma {:induction false} PostsNewestFirstOrdered(posts: seq<BlogPost>, authorId: Option<int>)
    requires PostIdsIncreasing(posts)
    ensures forall i, j :: 0 <= i < j < |PostsNewestFirst(posts, authorId)| ==>
              PostsNewestFirst(posts, authorId)[i].id > PostsNewestFirst(posts, authorId)[j].id
  {
    if posts != [] {
      var init := posts[..|posts| - 1];
      PostsNewestFirstOrdered(init, authorId);
      var rest := PostsNewestFirst(init, authorId);
      forall j | 0 <= j < |rest|
        ensures rest[j].id < posts[|posts| - 1].id
      {
        assert rest[j] in init;
      }
    }
  }

  lemma {:induction false} CountPostsIsListed(posts: seq<BlogPost>, authorId: Option<int>)
    ensures CountPosts(posts, authorId) == |PostsNewestFirst(posts, authorId)|
  {
    if posts != [] {
      var last := posts[|posts| - 1];
      var init := posts[..|posts| - 1];
      CountPostsIsListed(init, authorId);
      CountPostsOfAppend(init, last, authorId);
      assert posts == init + [last];
    }
  }

  lemma {:induction false} CountPostsOfAppend(posts: seq<BlogPost>, p: BlogPost, authorId: Option<int>)
    ensures CountPosts(posts + [p], authorId) == CountPosts(posts, authorId) + (if MatchesAuthor(p, authorId) then 1 else 0)
  {
    if posts != [] {
      assert (posts + [p])[1..] == posts[1..] + [p];
      CountPostsOfAppend(posts[1..], p, authorId);
    }
  }

  /** Page `page` starts inside the listing exactly when `page` is at most the page count. */
  lemma PageInRange(n: nat, page: int)
    requires page >= 1
    ensures (page - 1) * PostsPageSize < n <==> page <= CeilDiv(n, PostsPageSize)
  {
    var t := CeilDiv(n, PostsPageSize);
    if page <= t {
      assert (page - 1) * PostsPageSize <= (t - 1) * PostsPageSize;
    } else {
      assert (page - 1) * PostsPageSize >= t * PostsPageSize;
    }
  }

  /** The slice a page shows: `skip(from).limit(6)` on the listing. */
  lemma {:induction false} PageIsSlice(posts: seq<BlogPost>, authorId: Option<int>, page: int)
    requires page >= 1
    ensures var rows := PostsNewestFirst(posts, authorId);
      var skip := (page - 1) * PostsPageSize;
      var from := if skip <= |rows| then skip else |rows|;
      var to := if from + PostsPageSize <= |rows| then from + PostsPageSize else |rows|;
      GetBlogPosts(posts, authorId, page).blogPosts == rows[from..to]
  {
  }

  /** A slice of an id-descending listing of matching posts is itself one. */
  lemma SliceOfListing(posts: seq<BlogPost>, authorId: Option<int>, from: nat, to: nat)
    requires PostIdsIncreasing(posts)
    requires from <= to <= |PostsNewestFirst(posts, authorId)|
    ensures var page := PostsNewestFirst(posts, authorId)[from..to];
      && (forall i :: 0 <= i < |page| ==> page[i] in posts && MatchesAuthor(page[i], authorId))
      && (forall i, j :: 0 <= i < j < |page| ==> page[i].id > page[j].id)
  {
    var rows := PostsNewestFirst(posts, authorId);
    PostsNewestFirstOrdered(posts, authorId);
    var page := rows[from..to];
    forall i | 0 <= i < |page|
      ensures page[i] in rows
    {
      assert page[i] == rows[from + i];
    }
  }

  /** Page `page` shows the listing from position `(page - 1) * 6` on, six rows or as many as remain. */
  lemma PageShowsSlice(posts: seq<BlogPost>, authorId: Option<int>, page: int)
    requires page >= 1
    ensures var r := GetBlogPosts(posts, authorId, page);
      var rows := PostsNewestFirst(posts, authorId);
      var skip := (page - 1) * PostsPageSize;
      && (forall i :: 0 <= i < |r.blogPosts| ==> skip + i < |rows| && r.blogPosts[i] == rows[skip + i])
      && |r.blogPosts| == (if skip + PostsPageSize <= |rows| then PostsPageSize else if skip <= |rows| then |rows| - skip else 0)
  {
    PageIsSlice(posts, authorId, page);
  }

  /**
   * Page `page` skips the `(page - 1) * 6` newest matching posts and shows the
   * next six (fewer on the last page), newest first, and `totalPages` is the
   * number of pages needed to show every matching post.
   */
  lemma GetBlogPostsContents(posts: seq<BlogPost>, authorId: Option<int>, page: int)
    requires PostIdsIncreasing(posts) && page >= 1
    ensures var r := GetBlogPosts(posts, authorId, page);
      var rows := PostsNewestFirst(posts, authorId);
      var skip := (page - 1) * PostsPageSize;
      && (forall i :: 0 <= i < |r.blogPosts| ==> skip + i < |rows| && r.blogPosts[i] == rows[skip + i])
      && |r.blogPosts| == (if skip + PostsPageSize <= |rows| then PostsPageSize else if skip <= |rows| then |rows| - skip else 0)
      && (forall i :: 0 <= i < |r.blogPosts| ==> r.blogPosts[i] in posts && MatchesAuthor(r.blogPosts[i], authorId))
      && (forall i, j :: 0 <= i < j < |r.blogPosts| ==> r.blogPosts[i].id > r.blogPosts[j].id)
      && (r.blogPosts != [] <==> page <= r.totalPages)
  {
    var rows := PostsNewestFirst(posts, authorId);
    var skip := (page - 1) * PostsPageSize;
    var from := if skip <= |rows| then skip else |rows|;
    var to := if from + PostsPageSize <= |rows| then from + PostsPageSize else |rows|;
    PageIsSlice(posts, authorId, page);
    PageShowsSlice(posts, authorId, page);
    SliceOfListing(posts, authorId, from, to);
    CountPostsIsListed(posts, authorId);
    PageInRange(|rows|, page);
  }

  /** Removing one post keeps the ids increasing and the slugs unique. */
  lemma RemoveAtKeepsInvariants(posts: seq<BlogPost>, k: nat)
    requires k < |posts|
    requires PostIdsIncreasing(posts) && SlugsUnique(posts)
    ensures var rest := posts[..k] + posts[k + 1..];
      && PostIdsIncreasing(rest) && SlugsUnique(rest)
      && forall p :: p in rest ==> p in posts
  {
    var rest := posts[..k] + posts[k + 1..];
    assert forall i :: 0 <= i < |rest| ==> rest[i] == posts[if i < k then i else i + 1];
  }

  // ---------------------------------------------------------------------------
  // The store and its handlers

  class PostStore {
    /** The posts in insertion order. */
    var posts: seq<BlogPost>
    /** The id the next created post gets. */
    var nextId: int

    ghost predicate Valid()
      reads this
    {
      && PostIdsIncreasing(posts)
      && (forall i :: 0 <= i < |posts| ==> posts[i].id < nextId)
      && SlugsUnique(posts)
    }

    constructor ()
      ensures Valid() && posts == []
    {
      posts := [];
      nextId := 1;
    }

    /**
     * `createBlogPost`: needs an uploaded image and a signed-in user, and
     * refuses any slug already in use with 409.
     */
    method CreateBlogPost(slug: string, title: string, summary: string, body: string, hasImage: bool, user: Option<int>)
      returns (r: Result<BlogPost>)
      requires Valid()
      modifies this
      ensures Valid()
      ensures !hasImage || user.None? ==> r == Err(UnexpectedError) && posts == old(posts)
      ensures hasImage && user.Some? && FindBySlug(old(posts), slug).Some? ==>
                r == Err(SlugTaken) && posts == old(posts)
      ensures hasImage && user.Some? && FindBySlug(old(posts), slug).None? ==>
                && r.Ok?
                && r.value == BlogPost(r.value.id, slug, title, summary, body, ImageUrl(r.value.id, None), user.value)
                && posts == old(posts) + [r.value]
                && FindPost(old(posts), r.value.id).None?
    {
      if !hasImage || user.None? {
        return Err(UnexpectedError);
      }
      if FindBySlug(posts, slug).Some? {
        return Err(SlugTaken);
      }
      var id := nextId;
      var created := BlogPost(id, slug, title, summary, body, ImageUrl(id, None), user.value);
      posts := posts + [created];
      nextId := nextId + 1;
      r := Ok(created);
    }

    /**
     * `updateBlogPost`: the slug check comes first (409 when another post has
     * the slug), then 404, then 401; on success the four text fields are
     * replaced, and the image URL too when a new image came with the request
     * at time `imageUploadedAt`.
     */
    method UpdateBlogPost(blogPostId: int, slug: string, title: string, summary: string, body: string,
                          imageUploadedAt: Option<int>, user: Option<int>)
      returns (r: Result<int>)
      requires Valid()
      modifies this
      ensures Valid() && nextId == old(nextId)
      ensures user.None? ==> r == Err(UnexpectedError) && posts == old(posts)
      ensures user.Some? && SlugTakenByOther(old(posts), slug, blogPostId) ==>
                r == Err(SlugTaken) && posts == old(posts)
      ensures user.Some? && !SlugTakenByOther(old(posts), slug, blogPostId) && FindPost(old(posts), blogPostId).None? ==>
                r == Err(PostNotFound) && posts == old(posts)
      ensures user.Some? && !SlugTakenByOther(old(posts), slug, blogPostId) && FindPost(old(posts), blogPostId).Some? ==>
                var k := FindPost(old(posts), blogPostId).value;
                var p := old(posts)[k];
                if p.authorId != user.value then
                  r == Err(Unauthorized) && posts == old(posts)
                else
                  && r == Ok(200)
                  && posts == old(posts)[k := p.(slug := slug, title := title, summary := summary, body := body,
                                                 featuredImageUrl := if imageUploadedAt.Some?
                                                                     then ImageUrl(blogPostId, imageUploadedAt)
                                                                     else p.featuredImageUrl)]
    {
      if user.None? {
        return Err(UnexpectedError);
      }
      if SlugTakenByOther(posts, slug, blogPostId) {
        return Err(SlugTaken);
      }
      var found := FindPost(posts, blogPostId);
      if found.None? {
        return Err(PostNotFound);
      }
      var k := found.value;
      var p := posts[k];
      if p.authorId != user.value {
        return Err(Unauthorized);
      }
      var image := if imageUploadedAt.Some? then ImageUrl(blogPostId, imageUploadedAt) else p.featuredImageUrl;
      var updated := p.(slug := slug, title := title, summary := summary, body := body, featuredImageUrl := image);
      posts := posts[k := updated];
      r := Ok(200);
    }

    /** `deleteBlogPost`: 404, then 401, then the post is removed; the response status is 204. */
    method DeleteBlogPost(blogPostId: int, user: Option<int>) returns (r: Result<int>)
      requires Valid()
      modifies this
      ensures Valid() && nextId == old(nextId)
      ensures user.None? ==> r == Err(UnexpectedError) && posts == old(posts)
      ensures user.Some? && FindPost(old(posts), blogPostId).None? ==>
                r == Err(PostNotFound) && posts == old(posts)
      ensures user.Some? && FindPost(old(posts), blogPostId).Some? ==>
                var k := FindPost(old(posts), blogPostId).value;
                if old(posts)[k].authorId != user.value then
                  r == Err(Unauthorized) && posts == old(posts)
                else
                  r == Ok(204) && posts == old(posts)[..k] + old(posts)[k + 1..]
    {
      if user.None? {
        return Err(UnexpectedError);
      }
      var found := FindPost(posts, blogPostId);
      if found.None? {
        return Err(PostNotFound);
      }
      var k := found.value;
      if posts[k].authorId != user.value {
        return Err(Unauthorized);
      }
      RemoveAtKeepsInvariants(posts, k);
      posts := posts[..k] + posts[k + 1..];
      r := Ok(204);
    }
  }
}
