/**
 * The comment-thread service of the blog backend: cursor pagination of
 * top-level comments and of replies, reply counts, and author-only update and
 * cascading delete.
 *
 * The comment collection is a sequence of records in insertion order. Each
 * new record gets the next id of a counter, so ids increase with creation
 * order; `CommentStore.Valid` keeps that invariant. The listings are pure
 * functions of that sequence.
 */
module Comments {
  import opened Options
  import opened Errors

  datatype Comment = Comment(
    id: int,
    blogPostId: int,
    authorId: int,
    text: string,
    parentCommentId: Option<int>)

  /** A top-level comment as the listing returns it: the record plus its `repliesCount`. */
  datatype CommentWithCount = CommentWithCount(comment: Comment, repliesCount: nat)

  /** The body of both listing responses. */
  datatype Page<T> = Page(comments: seq<T>, endOfPaginationReached: bool)

  const TopLevelPageSize: nat := 3
  const RepliesPageSize: nat := 2

  // ---------------------------------------------------------------------------
  // Orderings and cursors

  /** The order a listing walks ids in: top-level comments newest first, replies oldest first. */
  datatype Direction = NewestFirst | OldestFirst

  /** Id `a` is listed strictly before id `b` when walking in direction `d`. */
  predicate Before(d: Direction, a: int, b: int)
  {
    if d == NewestFirst then a > b else a < b
  }

  predicate InOrder(d: Direction, rows: seq<Comment>)
  {
    forall i, j :: 0 <= i < j < |rows| ==> Before(d, rows[i].id, rows[j].id)
  }

  /** The store invariant: ids strictly increase along the insertion order. */
  predicate IdsIncreasing(store: seq<Comment>)
  {
    InOrder(OldestFirst, store)
  }

  /**
   * The exclusive cursor filter: `query.lt('_id', c)` for the newest-first
   * listing and `query.gt('_id', c)` for the oldest-first one. Without a
   * cursor nothing is filtered out.
   */
  function PastCursor(d: Direction, rows: seq<Comment>, cursor: Option<int>): (r: seq<Comment>)
    ensures forall c {:trigger c in r} :: c in r <==> c in rows && (cursor.None? || Before(d, cursor.value, c.id))
    ensures |r| <= |rows|
  {
    if rows == [] then []
    else
      (if cursor.None? || Before(d, cursor.value, rows[0].id) then [rows[0]] else [])
      + PastCursor(d, rows[1..], cursor)
  }

  /**
   * `limit(pageSize + 1)` followed by `slice(0, pageSize)` and
   * `length <= pageSize`: one extra row is fetched only to learn whether
   * another page exists.
   */
  function LookaheadPage<T>(rows: seq<T>, pageSize: nat): (p: Page<T>)
    ensures p.endOfPaginationReached <==> |rows| <= pageSize
    ensures p.endOfPaginationReached ==> p.comments == rows
    ensures !p.endOfPaginationReached ==> p.comments == rows[..pageSize]
  {
    var fetched := if |rows| <= pageSize + 1 then rows else rows[..pageSize + 1];
    var page := if |fetched| <= pageSize then fetched else fetched[..pageSize];
    Page(page, |fetched| <= pageSize)
  }

  // ---------------------------------------------------------------------------
  // Queries

  predicate IsTopLevelOf(c: Comment, blogPostId: int)
  {
    c.blogPostId == blogPostId && c.parentCommentId.None?
  }

  /**
   * `find({ blogPostId, parentCommentId: undefined }).sort({ _id: -1 })`: the
   * top-level comments of a post, read from the newest record backwards.
   */
  function TopLevelNewestFirst(store: seq<Comment>, blogPostId: int): (r: seq<Comment>)
    ensures forall c :: c in r <==> c in store && IsTopLevelOf(c, blogPostId)
  {
    if store == [] then []
    else
      var last := store[|store| - 1];
      assert store == store[..|store| - 1] + [last];
      (if IsTopLevelOf(last, blogPostId) then [last] else [])
      + TopLevelNewestFirst(store[..|store| - 1], blogPostId)
  }

  /**
   * `find({ parentCommentId })`. The query has no sort; the model takes the
   * store's natural order, insertion order, which is ascending id order.
   */
  function RepliesInStoreOrder(store: seq<Comment>, parentId: int): (r: seq<Comment>)
    ensures forall c :: c in r <==> c in store && c.parentCommentId == Some(parentId)
  {
    if store == [] then []
    else
      (if store[0].parentCommentId == Some(parentId) then [store[0]] else [])
      + RepliesInStoreOrder(store[1..], parentId)
  }

  /** `countDocuments({ parentCommentId })`. */
  function CountReplies(store: seq<Comment>, parentId: int): (r: nat)
    ensures r == |RepliesInStoreOrder(store, parentId)|
    ensures r <= |store|
  {
    if store == [] then 0
    else (if store[0].parentCommentId == Some(parentId) then 1 else 0) + CountReplies(store[1..], parentId)
  }

  /** The set of stored comments that reply to `parentId`, however they are ordered. */
  ghost function ReplySet(store: seq<Comment>, parentId: int): set<Comment>
  {
    set c | c in store && c.parentCommentId == Some(parentId)
  }

  /** The rows the top-level listing pages through for a given cursor. */
  function TopLevelRows(store: seq<Comment>, blogPostId: int, continueAfterId: Option<int>): seq<Comment>
  {
    PastCursor(NewestFirst, TopLevelNewestFirst(store, blogPostId), continueAfterId)
  }

  /** The rows the reply listing pages through for a given cursor. */
  function ReplyRows(store: seq<Comment>, parentId: int, continueAfterId: Option<int>): seq<Comment>
  {
    PastCursor(OldestFirst, RepliesInStoreOrder(store, parentId), continueAfterId)
  }

  function WithRepliesCount(store: seq<Comment>, comments: seq<Comment>): (r: seq<CommentWithCount>)
    ensures |r| == |comments|
    ensures forall i :: 0 <= i < |r| ==> r[i].comment == comments[i] && r[i].repliesCount == CountReplies(store, comments[i].id)
  {
    seq(|comments|, i requires 0 <= i < |comments| => CommentWithCount(comments[i], CountReplies(store, comments[i].id)))
  }

  function CommentsOf(rows: seq<CommentWithCount>): (r: seq<Comment>)
    ensures |r| == |rows| && forall i :: 0 <= i < |r| ==> r[i] == rows[i].comment
  {
    seq(|rows|, i requires 0 <= i < |rows| => rows[i].comment)
  }

  /** `getCommentsForBlogPost`: a page of at most three top-level comments with their reply counts. */
  function GetCommentsForBlogPost(store: seq<Comment>, blogPostId: int, continueAfterId: Option<int>): (r: Page<CommentWithCount>)
    ensures |r.comments| <= TopLevelPageSize
    ensures !r.endOfPaginationReached ==> |r.comments| == TopLevelPageSize
    ensures r.endOfPaginationReached <==> |TopLevelRows(store, blogPostId, continueAfterId)| <= TopLevelPageSize
    ensures forall i :: 0 <= i < |r.comments| ==> r.comments[i].repliesCount == CountReplies(store, r.comments[i].comment.id)
  {
    var page := LookaheadPage(TopLevelRows(store, blogPostId, continueAfterId), TopLevelPageSize);
    Page(WithRepliesCount(store, page.comments), page.endOfPaginationReached)
  }

  /** `getCommentReplies`: a page of at most two replies to one comment. */
  function GetCommentReplies(store: seq<Comment>, parentId: int, continueAfterId: Option<int>): (r: Page<Comment>)
    ensures |r.comments| <= RepliesPageSize
    ensures !r.endOfPaginationReached ==> |r.comments| == RepliesPageSize
    ensures r.endOfPaginationReached <==> |ReplyRows(store, parentId, continueAfterId)| <= RepliesPageSize
  {
    LookaheadPage(ReplyRows(store, parentId, continueAfterId), RepliesPageSize)
  }

  // ---------------------------------------------------------------------------
  // Ordering lemmas

  lemma {:induction false} PastCursorInOrder(d: Direction, rows: seq<Comment>, cursor: Option<int>)
    requires InOrder(d, rows)
    ensures InOrder(d, PastCursor(d, rows, cursor))
  {
    if rows != [] {
      PastCursorInOrder(d, rows[1..], cursor);
      var rest := PastCursor(d, rows[1..], cursor);
      forall j | 0 <= j < |rest|
        ensures Before(d, rows[0].id, rest[j].id)
      {
        assert rest[j] in rest;
        assert rest[j] in rows[1..];
      }
    }
  }

  lemma {:induction false} TopLevelNewestFirstInOrder(store: seq<Comment>, blogPostId: int)
    requires IdsIncreasing(store)
    ensures InOrder(NewestFirst, TopLevelNewestFirst(store, blogPostId))
  {
    if store != [] {
      var init := store[..|store| - 1];
      TopLevelNewestFirstInOrder(init, blogPostId);
      var rest := TopLevelNewestFirst(init, blogPostId);
      forall j | 0 <= j < |rest|
        ensures rest[j].id < store[|store| - 1].id
      {
        assert rest[j] in init;
      }
    }
  }

  lemma {:induction false} RepliesInStoreOrderInOrder(store: seq<Comment>, parentId: int)
    requires IdsIncreasing(store)
    ensures InOrder(OldestFirst, RepliesInStoreOrder(store, parentId))
  {
    if store != [] {
      RepliesInStoreOrderInOrder(store[1..], parentId);
      var rest := RepliesInStoreOrder(store[1..], parentId);
      forall j | 0 <= j < |rest|
        ensures store[0].id < rest[j].id
      {
        assert rest[j] in store[1..];
      }
    }
  }

  lemma {:induction false} PastCursorNone(d: Direction, rows: seq<Comment>)
    ensures PastCursor(d, rows, None) == rows
  {
    if rows != [] {
      PastCursorNone(d, rows[1..]);
    }
  }

  /** Rows that all lie past the cursor all survive it. */
  lemma {:induction false} PastCursorKeepsAll(d: Direction, rows: seq<Comment>, c: int)
    requires forall j :: 0 <= j < |rows| ==> Before(d, c, rows[j].id)
    ensures PastCursor(d, rows, Some(c)) == rows
  {
    if rows != [] {
      PastCursorKeepsAll(d, rows[1..], c);
    }
  }

  /** Taking the id of the k-th ordered row as cursor leaves exactly the rows after it. */
  lemma {:induction false} CursorAtRow(d: Direction, rows: seq<Comment>, k: nat)
    requires InOrder(d, rows) && k < |rows|
    ensures PastCursor(d, rows, Some(rows[k].id)) == rows[k + 1..]
  {
    if k == 0 {
      PastCursorKeepsAll(d, rows[1..], rows[0].id);
    } else {
      CursorAtRow(d, rows[1..], k - 1);
      assert rows[1..][k - 1] == rows[k];
      assert rows[1..][k..] == rows[k + 1..];
    }
  }

  /** A cursor further along than an earlier one makes the earlier filter redundant. */
  lemma {:induction false} CursorsCompose(d: Direction, rows: seq<Comment>, cursor: Option<int>, b: int)
    requires cursor.None? || Before(d, cursor.value, b)
    ensures PastCursor(d, PastCursor(d, rows, cursor), Some(b)) == PastCursor(d, rows, Some(b))
  {
    if rows != [] {
      CursorsCompose(d, rows[1..], cursor, b);
      var rest := PastCursor(d, rows[1..], cursor);
      var inner := PastCursor(d, rows, cursor);
      if cursor.None? || Before(d, cursor.value, rows[0].id) {
        assert inner == [rows[0]] + rest;
        assert inner[0] == rows[0] && inner[1..] == rest;
      } else {
        assert inner == rest;
        assert !Before(d, b, rows[0].id);
      }
    }
  }

  /**
   * Following a page with the id of its last row as the next cursor yields
   * exactly the rows that were not yet shown.
   */
  lemma NextCursorSkipsShownRows(d: Direction, rows: seq<Comment>, cursor: Option<int>, k: nat)
    requires InOrder(d, rows)
    requires k < |PastCursor(d, rows, cursor)|
    ensures PastCursor(d, rows, Some(PastCursor(d, rows, cursor)[k].id)) == PastCursor(d, rows, cursor)[k + 1..]
  {
    var x := PastCursor(d, rows, cursor);
    PastCursorInOrder(d, rows, cursor);
    assert x[k] in x;
    CursorsCompose(d, rows, cursor, x[k].id);
    CursorAtRow(d, x, k);
  }

  // ---------------------------------------------------------------------------
  // Page contents

  /**
   * A top-level page holds only top-level comments of the post, newest first,
   * all older than the cursor, and they are the newest such comments: the
   * page is a prefix of all remaining rows.
   */
  lemma TopLevelPageContents(store: seq<Comment>, blogPostId: int, continueAfterId: Option<int>)
    requires IdsIncreasing(store)
    ensures var page := CommentsOf(GetCommentsForBlogPost(store, blogPostId, continueAfterId).comments);
      && page == TopLevelRows(store, blogPostId, continueAfterId)[..|page|]
      && (forall i :: 0 <= i < |page| ==> page[i] in store && IsTopLevelOf(page[i], blogPostId))
      && (forall i :: 0 <= i < |page| ==> continueAfterId.None? || page[i].id < continueAfterId.value)
      && (forall i, j :: 0 <= i < j < |page| ==> page[i].id > page[j].id)
  {
    var rows := TopLevelRows(store, blogPostId, continueAfterId);
    TopLevelNewestFirstInOrder(store, blogPostId);
    PastCursorInOrder(NewestFirst, TopLevelNewestFirst(store, blogPostId), continueAfterId);
    var page := CommentsOf(GetCommentsForBlogPost(store, blogPostId, continueAfterId).comments);
    assert page == LookaheadPage(rows, TopLevelPageSize).comments;
    forall i | 0 <= i < |page|
      ensures page[i] in rows
    {
      assert page[i] == rows[i];
    }
  }

  /** Each reply count is the number of stored comments that name that comment as parent. */
  lemma {:induction false} CountRepliesIsReplySetSize(store: seq<Comment>, parentId: int)
    requires IdsIncreasing(store)
    ensures CountReplies(store, parentId) == |ReplySet(store, parentId)| == |RepliesInStoreOrder(store, parentId)|
  {
    if store != [] {
      var rest := store[1..];
      CountRepliesIsReplySetSize(rest, parentId);
      assert store[0] !in rest;
      if store[0].parentCommentId == Some(parentId) {
        assert ReplySet(store, parentId) == {store[0]} + ReplySet(rest, parentId);
      } else {
        assert ReplySet(store, parentId) == ReplySet(rest, parentId);
      }
    }
  }

  lemma RepliesCountsExact(store: seq<Comment>, blogPostId: int, continueAfterId: Option<int>)
    requires IdsIncreasing(store)
    ensures var r := GetCommentsForBlogPost(store, blogPostId, continueAfterId);
      forall i :: 0 <= i < |r.comments| ==> r.comments[i].repliesCount == |ReplySet(store, r.comments[i].comment.id)|
  {
    var r := GetCommentsForBlogPost(store, blogPostId, continueAfterId);
    forall i | 0 <= i < |r.comments|
      ensures r.comments[i].repliesCount == |ReplySet(store, r.comments[i].comment.id)|
    {
      CountRepliesIsReplySetSize(store, r.comments[i].comment.id);
    }
  }

  /**
   * A reply page holds only replies to the given comment, oldest first, all
   * newer than the cursor, and they are the oldest such replies.
   */
  lemma ReplyPageContents(store: seq<Comment>, parentId: int, continueAfterId: Option<int>)
    requires IdsIncreasing(store)
    ensures var page := GetCommentReplies(store, parentId, continueAfterId).comments;
      && page == ReplyRows(store, parentId, continueAfterId)[..|page|]
      && (forall i :: 0 <= i < |page| ==> page[i] in store && page[i].parentCommentId == Some(parentId))
      && (forall i :: 0 <= i < |page| ==> continueAfterId.None? || page[i].id > continueAfterId.value)
      && (forall i, j :: 0 <= i < j < |page| ==> page[i].id < page[j].id)
  {
    var rows := ReplyRows(store, parentId, continueAfterId);
    RepliesInStoreOrderInOrder(store, parentId);
    PastCursorInOrder(OldestFirst, RepliesInStoreOrder(store, parentId), continueAfterId);
    var page := GetCommentReplies(store, parentId, continueAfterId).comments;
    forall i | 0 <= i < |page|
      ensures page[i] in rows
    {
      assert page[i] == rows[i];
    }
  }

  // ---------------------------------------------------------------------------
  // Paging to the end

  /**
   * What a client sees by loading the first top-level page and then, while
   * the end flag is false, the page after the id of the last comment shown.
   */
  function FollowTopLevelPages(store: seq<Comment>, blogPostId: int, continueAfterId: Option<int>): seq<Comment>
    requires IdsIncreasing(store)
    decreases |TopLevelRows(store, blogPostId, continueAfterId)|
  {
    var page := GetCommentsForBlogPost(store, blogPostId, continueAfterId);
    var shown := CommentsOf(page.comments);
    if page.endOfPaginationReached then shown
    else
      TopLevelNewestFirstInOrder(store, blogPostId);
      NextCursorSkipsShownRows(NewestFirst, TopLevelNewestFirst(store, blogPostId), continueAfterId, TopLevelPageSize - 1);
      shown + FollowTopLevelPages(store, blogPostId, Some(shown[TopLevelPageSize - 1].id))
  }

  lemma {:induction false} FollowTopLevelPagesFrom(store: seq<Comment>, blogPostId: int, continueAfterId: Option<int>)
    requires IdsIncreasing(store)
    ensures FollowTopLevelPages(store, blogPostId, continueAfterId) == TopLevelRows(store, blogPostId, continueAfterId)
    decreases |TopLevelRows(store, blogPostId, continueAfterId)|
  {
    var rows := TopLevelRows(store, blogPostId, continueAfterId);
    var page := GetCommentsForBlogPost(store, blogPostId, continueAfterId);
    var shown := CommentsOf(page.comments);
    assert shown == LookaheadPage(rows, TopLevelPageSize).comments;
    if !page.endOfPaginationReached {
      TopLevelNewestFirstInOrder(store, blogPostId);
      NextCursorSkipsShownRows(NewestFirst, TopLevelNewestFirst(store, blogPostId), continueAfterId, TopLevelPageSize - 1);
      FollowTopLevelPagesFrom(store, blogPostId, Some(shown[TopLevelPageSize - 1].id));
      assert rows == rows[..TopLevelPageSize] + rows[TopLevelPageSize..];
    }
  }

  /**
   * Paging through the top-level comments from the start yields every
   * top-level comment of the post exactly once, in strictly descending id order.
   */
  lemma TopLevelPagingIsExhaustive(store: seq<Comment>, blogPostId: int)
    requires IdsIncreasing(store)
    ensures var all := FollowTopLevelPages(store, blogPostId, None);
      && (forall c :: c in all <==> c in store && IsTopLevelOf(c, blogPostId))
      && (forall i, j :: 0 <= i < j < |all| ==> all[i].id > all[j].id)
  {
    FollowTopLevelPagesFrom(store, blogPostId, None);
    PastCursorNone(NewestFirst, TopLevelNewestFirst(store, blogPostId));
    TopLevelNewestFirstInOrder(store, blogPostId);
  }

  /** The replies a client sees by following reply pages to the end. */
  function FollowReplyPages(store: seq<Comment>, parentId: int, continueAfterId: Option<int>): seq<Comment>
    requires IdsIncreasing(store)
    decreases |ReplyRows(store, parentId, continueAfterId)|
  {
    var page := GetCommentReplies(store, parentId, continueAfterId);
    if page.endOfPaginationReached then page.comments
    else
      RepliesInStoreOrderInOrder(store, parentId);
      NextCursorSkipsShownRows(OldestFirst, RepliesInStoreOrder(store, parentId), continueAfterId, RepliesPageSize - 1);
      page.comments + FollowReplyPages(store, parentId, Some(page.comments[RepliesPageSize - 1].id))
  }

  lemma {:induction false} FollowReplyPagesFrom(store: seq<Comment>, parentId: int, continueAfterId: Option<int>)
    requires IdsIncreasing(store)
    ensures FollowReplyPages(store, parentId, continueAfterId) == ReplyRows(store, parentId, continueAfterId)
    decreases |ReplyRows(store, parentId, continueAfterId)|
  {
    var rows := ReplyRows(store, parentId, continueAfterId);
    var page := GetCommentReplies(store, parentId, continueAfterId);
    if !page.endOfPaginationReached {
      RepliesInStoreOrderInOrder(store, parentId);
      NextCursorSkipsShownRows(OldestFirst, RepliesInStoreOrder(store, parentId), continueAfterId, RepliesPageSize - 1);
      FollowReplyPagesFrom(store, parentId, Some(page.comments[RepliesPageSize - 1].id));
      assert rows == rows[..RepliesPageSize] + rows[RepliesPageSize..];
    }
  }

  /**
   * Paging through the replies of a comment yields each reply exactly once,
   * in strictly ascending id order, and as many replies as its `repliesCount`.
   */
  lemma ReplyPagingIsExhaustive(store: seq<Comment>, parentId: int)
    requires IdsIncreasing(store)
    ensures var all := FollowReplyPages(store, parentId, None);
      && (forall c :: c in all <==> c in store && c.parentCommentId == Some(parentId))
      && (forall i, j :: 0 <= i < j < |all| ==> all[i].id < all[j].id)
      && |all| == CountReplies(store, parentId)
  {
    FollowReplyPagesFrom(store, parentId, None);
    PastCursorNone(OldestFirst, RepliesInStoreOrder(store, parentId));
    RepliesInStoreOrderInOrder(store, parentId);
    CountRepliesIsReplySetSize(store, parentId);
  }

  // ---------------------------------------------------------------------------
  // Creation while a client pages

  /**
   * A comment created while a client pages through the top-level listing
   * does not shift the rows behind any cursor the client holds: its id is
   * not below a cursor at most that id, so the `lt` filter keeps it out.
   */
  lemma CreateKeepsTopLevelRows(store: seq<Comment>, c: Comment, blogPostId: int, k: int)
    requires k <= c.id
    ensures TopLevelRows(store + [c], blogPostId, Some(k)) == TopLevelRows(store, blogPostId, Some(k))
  {
    var extended := store + [c];
    assert extended[..|extended| - 1] == store;
    var rest := TopLevelNewestFirst(store, blogPostId);
    if IsTopLevelOf(c, blogPostId) {
      assert TopLevelNewestFirst(extended, blogPostId) == [c] + rest;
      assert ([c] + rest)[1..] == rest;
    } else {
      assert TopLevelNewestFirst(extended, blogPostId) == rest;
    }
  }

  lemma {:induction false} PastCursorOfConcat(d: Direction, a: seq<Comment>, b: seq<Comment>, cursor: Option<int>)
    ensures PastCursor(d, a + b, cursor) == PastCursor(d, a, cursor) + PastCursor(d, b, cursor)
  {
    if a == [] {
      assert a + b == b;
    } else {
      assert (a + b)[0] == a[0] && (a + b)[1..] == a[1..] + b;
      PastCursorOfConcat(d, a[1..], b, cursor);
    }
  }

  lemma {:induction false} RepliesOfAppended(store: seq<Comment>, c: Comment, parentId: int)
    ensures RepliesInStoreOrder(store + [c], parentId)
         == RepliesInStoreOrder(store, parentId) + (if c.parentCommentId == Some(parentId) then [c] else [])
  {
    if store == [] {
      assert [] + [c] == [c] && [c][1..] == [];
    } else {
      assert (store + [c])[0] == store[0] && (store + [c])[1..] == store[1..] + [c];
      RepliesOfAppended(store[1..], c, parentId);
    }
  }

  /**
   * A reply created while a client pages through the replies of its parent
   * joins the end of the rows still to come whenever its id is past the
   * client's cursor, and nothing else changes there.
   */
  lemma CreateAppendsToReplyRows(store: seq<Comment>, c: Comment, parentId: int, cursor: Option<int>)
    ensures ReplyRows(store + [c], parentId, cursor)
         == ReplyRows(store, parentId, cursor)
            + (if c.parentCommentId == Some(parentId) && (cursor.None? || cursor.value < c.id) then [c] else [])
  {
    var added := if c.parentCommentId == Some(parentId) then [c] else [];
    RepliesOfAppended(store, c, parentId);
    PastCursorOfConcat(OldestFirst, RepliesInStoreOrder(store, parentId), added, cursor);
    assert PastCursor(OldestFirst, added, cursor)
        == (if c.parentCommentId == Some(parentId) && (cursor.None? || cursor.value < c.id) then [c] else []) by {
      if added == [c] {
        assert [c][1..] == [];
      }
    }
  }

  // ---------------------------------------------------------------------------
  // Lookup, delete and the nesting policy

  /** `findById(id)`: the position of the record with that id, if any. */
  function FindComment(store: seq<Comment>, id: int): (r: Option<nat>)
    ensures r.Some? ==> r.value < |store| && store[r.value].id == id
    ensures r.None? <==> forall i :: 0 <= i < |store| ==> store[i].id != id
  {
    if store == [] then None
    else if store[0].id == id then Some(0)
    else match FindComment(store[1..], id)
      case None => None
      case Some(k) => Some(k + 1)
  }

  /** `deleteOne` on the record found by id. */
  function DeleteById(store: seq<Comment>, id: int): (r: seq<Comment>)
    ensures forall c :: c in r <==> c in store && c.id != id
  {
    if store == [] then []
    else (if store[0].id == id then [] else [store[0]]) + DeleteById(store[1..], id)
  }

  /** `deleteMany({ parentCommentId })`. */
  function DeleteReplies(store: seq<Comment>, parentId: int): (r: seq<Comment>)
    ensures forall c :: c in r <==> c in store && c.parentCommentId != Some(parentId)
  {
    if store == [] then []
    else (if store[0].parentCommentId == Some(parentId) then [] else [store[0]]) + DeleteReplies(store[1..], parentId)
  }

  /** The two deletions of `deleteComment`, in the order it runs them. */
  function CascadeDelete(store: seq<Comment>, id: int): (r: seq<Comment>)
    ensures forall c :: c in r <==> c in store && c.id != id && c.parentCommentId != Some(id)
  {
    DeleteReplies(DeleteById(store, id), id)
  }

  /** Dropping records from an id-ordered store keeps it id-ordered. */
  lemma {:induction false} DeletesKeepOrder(store: seq<Comment>, id: int)
    requires IdsIncreasing(store)
    ensures IdsIncreasing(DeleteById(store, id))
    ensures IdsIncreasing(DeleteReplies(store, id))
  {
    if store != [] {
      DeletesKeepOrder(store[1..], id);
      var a := DeleteById(store[1..], id);
      var b := DeleteReplies(store[1..], id);
      forall j | 0 <= j < |a|
        ensures store[0].id < a[j].id
      {
        assert a[j] in store[1..];
      }
      forall j | 0 <= j < |b|
        ensures store[0].id < b[j].id
      {
        assert b[j] in store[1..];
      }
    }
  }

  /**
   * The cascade removes the comment and every comment naming it as parent,
   * whoever wrote them, keeps every other comment, and keeps the store ordered.
   */
  lemma CascadeDeleteContents(store: seq<Comment>, id: int)
    requires IdsIncreasing(store)
    ensures forall c :: c in CascadeDelete(store, id) <==> c in store && c.id != id && c.parentCommentId != Some(id)
    ensures IdsIncreasing(CascadeDelete(store, id))
  {
    DeletesKeepOrder(store, id);
    DeletesKeepOrder(DeleteById(store, id), id);
  }

  /**
   * A non-empty listing has a member. Stated for every listing so that a
   * caller who knows a listing has no member can conclude it is empty.
   */
  lemma HeadIsMember(rows: seq<Comment>)
    ensures rows != [] ==> rows[0] in rows
  {
  }

  /** After the cascade, listing the deleted comment's replies gives an empty, final page. */
  lemma NoRepliesAfterCascade(store: seq<Comment>, id: int)
    requires IdsIncreasing(store)
    ensures GetCommentReplies(CascadeDelete(store, id), id, None) == Page([], true)
  {
    var after := CascadeDelete(store, id);
    var rows := RepliesInStoreOrder(after, id);
    HeadIsMember(rows);
    PastCursorNone(OldestFirst, rows);
  }

  /** A record is a reply whose parent exists and is itself top-level, or is top-level. */
  predicate ParentIsTopLevel(store: seq<Comment>, c: Comment)
  {
    match c.parentCommentId
    case None => true
    case Some(p) =>
      match FindComment(store, p)
      case None => false
      case Some(k) => store[k].parentCommentId.None?
  }

  /** The one-level nesting policy: every reply names an existing top-level comment. */
  predicate NestingValid(store: seq<Comment>)
  {
    forall i :: 0 <= i < |store| ==> ParentIsTopLevel(store, store[i])
  }

  /** In a store with distinct ids, looking up the id of a stored record finds that record. */
  lemma {:induction false} FindStored(store: seq<Comment>, c: Comment)
    requires IdsIncreasing(store) && c in store
    ensures FindComment(store, c.id).Some? && store[FindComment(store, c.id).value] == c
  {
    var j :| 0 <= j < |store| && store[j] == c;
    var k := FindComment(store, c.id).value;
    assert store[k].id == store[j].id;
  }

  lemma {:induction false} FindInExtended(store: seq<Comment>, c: Comment, id: int)
    requires FindComment(store, id).Some?
    ensures FindComment(store + [c], id) == FindComment(store, id)
  {
    if store[0].id != id {
      assert (store + [c])[1..] == store[1..] + [c];
      FindInExtended(store[1..], c, id);
    }
  }

  lemma {:induction false} FindPastStored(store: seq<Comment>, c: Comment, id: int)
    requires FindComment(store, id).None?
    ensures FindComment(store + [c], id) == if c.id == id then Some(|store|) else None
  {
    if store != [] {
      assert (store + [c])[1..] == store[1..] + [c];
      FindPastStored(store[1..], c, id);
    }
  }

  /**
   * Storing a new record keeps the nesting policy exactly when the record is
   * top-level or names an existing top-level comment. `createComment` never
   * checks this: the store accepts both kinds of record.
   */
  lemma NestingAfterCreate(store: seq<Comment>, c: Comment)
    requires NestingValid(store)
    requires forall i :: 0 <= i < |store| ==> store[i].id < c.id
    ensures NestingValid(store + [c]) <==> ParentIsTopLevel(store, c)
  {
    var s' := store + [c];
    forall i | 0 <= i < |store|
      ensures ParentIsTopLevel(s', s'[i])
    {
      assert s'[i] == store[i];
      if store[i].parentCommentId.Some? {
        FindInExtended(store, c, store[i].parentCommentId.value);
      }
    }
    if c.parentCommentId.Some? {
      var p := c.parentCommentId.value;
      if FindComment(store, p).Some? {
        FindInExtended(store, c, p);
      } else {
        FindPastStored(store, c, p);
      }
    }
    assert s'[|store|] == c;
  }

  /** A reply to a reply is stored as readily as a reply to a top-level comment. */
  lemma ReplyToReplyBreaksNesting()
    ensures var store := [Comment(1, 7, 1, "post", None), Comment(2, 7, 1, "reply", Some(1))];
      && NestingValid(store)
      && !NestingValid(store + [Comment(3, 7, 1, "reply to reply", Some(2))])
  {
    var store := [Comment(1, 7, 1, "post", None), Comment(2, 7, 1, "reply", Some(1))];
    assert FindComment(store, 1) == Some(0);
    NestingAfterCreate(store, Comment(3, 7, 1, "reply to reply", Some(2)));
    assert FindComment(store, 2) == Some(1);
  }

  /**
   * On a store that keeps the one-level nesting policy, the cascade leaves
   * no reply without its parent.
   */
  lemma {:induction false} CascadeKeepsNesting(store: seq<Comment>, id: int)
    requires IdsIncreasing(store) && NestingValid(store)
    ensures NestingValid(CascadeDelete(store, id))
  {
    var after := CascadeDelete(store, id);
    CascadeDeleteContents(store, id);
    forall i | 0 <= i < |after|
      ensures ParentIsTopLevel(after, after[i])
    {
      var c := after[i];
      assert c in store;
      if c.parentCommentId.Some? {
        var p := c.parentCommentId.value;
        FindStored(store, c);
        var k := FindComment(store, p).value;
        var parent := store[k];
        assert parent in after;
        FindStored(after, parent);
      }
    }
  }

  /**
   * The cascade goes one level deep only. After a reply to a reply has been
   * stored, which `createComment` allows, deleting the top-level comment
   * removes the reply but keeps the reply to it, whose parent is now gone.
   */
  lemma CascadeOrphansReplyToReply()
    ensures var store := [Comment(1, 7, 1, "post", None), Comment(2, 7, 1, "reply", Some(1)),
                          Comment(3, 7, 1, "reply to reply", Some(2))];
      var after := CascadeDelete(store, 1);
      && Comment(3, 7, 1, "reply to reply", Some(2)) in after
      && FindComment(after, 2).None?
  {
    var store := [Comment(1, 7, 1, "post", None), Comment(2, 7, 1, "reply", Some(1)),
                  Comment(3, 7, 1, "reply to reply", Some(2))];
    assert store[2] in store;
  }

  // ---------------------------------------------------------------------------
  // The store and its handlers

  class CommentStore {
    /** The records in insertion order. */
    var comments: seq<Comment>
    /** The id the next created comment gets. */
    var nextId: int

    ghost predicate Valid()
      reads this
    {
      IdsIncreasing(comments) && forall i :: 0 <= i < |comments| ==> comments[i].id < nextId
    }

    constructor ()
      ensures Valid() && comments == []
    {
      comments := [];
      nextId := 1;
    }

    /**
     * `createComment`: stores the comment for the authenticated user with
     * whatever `parentCommentId` the request carries, unchecked.
     */
    method CreateComment(blogPostId: int, text: string, parentCommentId: Option<int>, user: Option<int>)
      returns (r: Result<Comment>)
      requires Valid()
      modifies this
      ensures Valid()
      ensures user.None? ==> r == Err(UnexpectedError) && comments == old(comments)
      ensures user.Some? ==> && r.Ok?
                             && r.value == Comment(r.value.id, blogPostId, user.value, text, parentCommentId)
                             && comments == old(comments) + [r.value]
                             && forall i :: 0 <= i < |old(comments)| ==> old(comments)[i].id < r.value.id
      // Top-level pages behind any cursor a client already holds stay the same.
      ensures user.Some? ==> forall p: int, k: int :: k <= r.value.id ==>
                TopLevelRows(comments, p, Some(k)) == TopLevelRows(old(comments), p, Some(k))
    {
      if user.None? {
        return Err(UnexpectedError);
      }
      var created := Comment(nextId, blogPostId, user.value, text, parentCommentId);
      forall p: int, k: int | k <= created.id
        ensures TopLevelRows(comments + [created], p, Some(k)) == TopLevelRows(comments, p, Some(k))
      {
        CreateKeepsTopLevelRows(comments, created, p, k);
      }
      comments := comments + [created];
      nextId := nextId + 1;
      r := Ok(created);
    }

    /**
     * `updateComment`: 404 when no comment has the id, 401 when the user is
     * not its author, and otherwise only that comment's text changes.
     */
    method UpdateComment(commentId: int, newText: string, user: Option<int>) returns (r: Result<Comment>)
      requires Valid()
      modifies this
      ensures Valid() && nextId == old(nextId)
      ensures user.None? ==> r == Err(UnexpectedError) && comments == old(comments)
      ensures user.Some? && FindComment(old(comments), commentId).None? ==>
                r == Err(NotFound) && comments == old(comments)
      ensures user.Some? && FindComment(old(comments), commentId).Some? ==>
                var k := FindComment(old(comments), commentId).value;
                if old(comments)[k].authorId != user.value then
                  r == Err(Unauthorized) && comments == old(comments)
                else
                  && comments == old(comments)[k := old(comments)[k].(text := newText)]
                  && r == Ok(comments[k])
    {
      if user.None? {
        return Err(UnexpectedError);
      }
      var found := FindComment(comments, commentId);
      if found.None? {
        return Err(NotFound);
      }
      var k := found.value;
      if comments[k].authorId != user.value {
        return Err(Unauthorized);
      }
      comments := comments[k := comments[k].(text := newText)];
      r := Ok(comments[k]);
    }

    /**
     * `deleteComment`: the same 404 and 401 checks, then the comment and all
     * its replies go; the response status is 200.
     */
    method DeleteComment(commentId: int, user: Option<int>) returns (r: Result<int>)
      requires Valid()
      modifies this
      ensures Valid() && nextId == old(nextId)
      ensures user.None? ==> r == Err(UnexpectedError) && comments == old(comments)
      ensures user.Some? && FindComment(old(comments), commentId).None? ==>
                r == Err(NotFound) && comments == old(comments)
      ensures user.Some? && FindComment(old(comments), commentId).Some? ==>
                var k := FindComment(old(comments), commentId).value;
                if old(comments)[k].authorId != user.value then
                  r == Err(Unauthorized) && comments == old(comments)
                else
                  r == Ok(200) && comments == CascadeDelete(old(comments), commentId)
    {
      if user.None? {
        return Err(UnexpectedError);
      }
      var found := FindComment(comments, commentId);
      if found.None? {
        return Err(NotFound);
      }
      if comments[found.value].authorId != user.value {
        return Err(Unauthorized);
      }
      CascadeDeleteContents(comments, commentId);
      DeletesKeepOrder(comments, commentId);
      comments := DeleteById(comments, commentId);
      comments := DeleteReplies(comments, commentId);
      r := Ok(200);
    }
  }
}
