/**
 * The `BlogCommentsSection` component: the top-level comments of one post,
 * loaded page by page, with comments the user writes put in front.
 */
module CommentsSection {
  import opened Options
  import opened ClientComments

  /**
   * What the section shows below the list: the "no comments yet" notice and
   * the "Show more comments" button, with the cursor that button sends.
   */
  datatype Footer = Footer(emptyNotice: bool, showMore: Option<Option<int>>)

  /**
   * The footer for the given list and flags. The notice needs a known end of
   * pagination and an empty list; the button needs no request in flight and
   * an end of pagination that is not known to be reached, and continues after
   * the last comment shown.
   */
  function SectionFooter(comments: seq<CommentView>, loading: bool, paginationEnd: Option<bool>): (f: Footer)
    ensures f.emptyNotice <==> paginationEnd == Some(true) && comments == []
    ensures f.showMore.Some? <==> !loading && paginationEnd != Some(true)
    ensures f.showMore.Some? ==> (f.showMore.value.None? <==> comments == [])
    ensures f.showMore.Some? && comments != [] ==> f.showMore.value == Some(comments[|comments| - 1].id)
    ensures !(f.emptyNotice && f.showMore.Some?)
  {
    var notice := match paginationEnd
      case Some(end) => end && |comments| == 0
      case None => false;
    var button := if loading || paginationEnd == Some(true) then None else Some(LastId(comments));
    Footer(notice, button)
  }

  class Section {
    var comments: seq<CommentView>
    var commentsLoading: bool
    var commentsLoadingIsError: bool
    var commentsPaginationEnd: Option<bool>

    constructor ()
      ensures comments == [] && !commentsLoading && !commentsLoadingIsError && commentsPaginationEnd == None
    {
      comments := [];
      commentsLoading := false;
      commentsLoadingIsError := false;
      commentsPaginationEnd := None;
    }

    /** The footer of the current state; it continues after the last comment shown. */
    function ShownFooter(): (f: Footer)
      reads this
      ensures f.emptyNotice ==> comments == [] && !f.showMore.Some?
      ensures f.showMore.Some? ==> !commentsLoading && f.showMore.value == LastId(comments)
    {
      SectionFooter(comments, commentsLoading, commentsPaginationEnd)
    }

    /** `loadNextCommentsPage` up to its `await`. */
    method BeginCommentsLoad()
      modifies this
      ensures commentsLoading && !commentsLoadingIsError
      ensures comments == old(comments) && commentsPaginationEnd == old(commentsPaginationEnd)
    {
      commentsLoading := true;
      commentsLoadingIsError := false;
    }

    /**
     * `loadNextCommentsPage(continueAfterId)` after its `await`. Without a
     * cursor the page replaces the list; with one it is appended to the list
     * as it is when the answer arrives.
     */
    method CompleteCommentsLoad(continueAfterId: Option<int>, outcome: LoadOutcome)
      modifies this
      ensures outcome.Loaded? && continueAfterId.None? ==> comments == outcome.response.comments
      ensures outcome.Loaded? && continueAfterId.Some? ==> comments == old(comments) + outcome.response.comments
      ensures outcome.Loaded? ==>
        commentsPaginationEnd == Some(outcome.response.endOfPaginationReached) && commentsLoadingIsError == old(commentsLoadingIsError)
      ensures outcome.LoadFailed? ==>
        comments == old(comments) && commentsPaginationEnd == old(commentsPaginationEnd) && commentsLoadingIsError
      ensures !commentsLoading
    {
      match outcome {
        case Loaded(response) =>
          if continueAfterId.None? {
            comments := response.comments;
          } else {
            comments := comments + response.comments;
          }
          commentsPaginationEnd := Some(response.endOfPaginationReached);
        case LoadFailed =>
          commentsLoadingIsError := true;
      }
      commentsLoading := false;
    }

    /**
     * `handleCommentCreated`, as the create box calls it once its own request
     * has answered: the create box holds the handler of the render in which
     * the form was submitted, so the new comment goes in front of the list
     * `captured` at that submit, not of the list shown now.
     */
    method HandleCommentCreated(captured: seq<CommentView>, newComment: CommentView)
      modifies this
      ensures comments == [newComment] + captured
      ensures commentsLoading == old(commentsLoading) && commentsLoadingIsError == old(commentsLoadingIsError)
      ensures commentsPaginationEnd == old(commentsPaginationEnd)
    {
      comments := [newComment] + captured;
    }

    /**
     * The same handler written as a functional update: the new comment goes
     * in front of the list as it is when the create request answers.
     */
    method HandleCommentCreatedOnCurrent(newComment: CommentView)
      modifies this
      ensures comments == [newComment] + old(comments)
      ensures commentsLoading == old(commentsLoading) && commentsLoadingIsError == old(commentsLoadingIsError)
      ensures commentsPaginationEnd == old(commentsPaginationEnd)
    {
      comments := [newComment] + comments;
    }
  }

  /**
   * A page of comments that arrives while a new comment is being created is
   * dropped: the create handler prepends to the list captured at submit,
   * which does not hold that page yet.
   */
  method LoadedPageLostOnCreate() returns (lost: CommentView, beforeCreate: seq<CommentView>, shown: seq<CommentView>)
    ensures lost in beforeCreate
    ensures lost !in shown
  {
    var s := new Section();
    var first := CommentView(1, "first", Some(0));
    lost := CommentView(0, "older", Some(0));
    s.BeginCommentsLoad();
    s.CompleteCommentsLoad(None, Loaded(CommentPage([first], false)));
    var captured := s.comments;
    s.BeginCommentsLoad();
    s.CompleteCommentsLoad(Some(first.id), Loaded(CommentPage([lost], true)));
    beforeCreate := s.comments;
    s.HandleCommentCreated(captured, CommentView(2, "new", Some(0)));
    shown := s.comments;
  }

  /**
   * With the functional update, every comment shown before the create
   * request answers is still shown after it, behind the new comment.
   */
  method LoadedPageKeptOnCreate(s: Section, page: CommentPage, newComment: CommentView) returns (shown: seq<CommentView>)
    modifies s
    ensures shown == s.comments
    ensures |shown| > 0 && shown[0] == newComment
    ensures forall c :: c in old(s.comments) + page.comments ==> c in shown
  {
    s.BeginCommentsLoad();
    s.CompleteCommentsLoad(LastId(s.comments), Loaded(page));
    s.HandleCommentCreatedOnCurrent(newComment);
    shown := s.comments;
  }
}
