/**
 * The `CommentThread` component: a top-level comment, the replies loaded from
 * the server page by page, and the replies the user wrote since the last
 * load.
 */
module CommentThread {
  import opened Options
  import opened ClientComments

  /** `list.map(c => c._id === updated._id ? updated : c)`. */
  function ReplaceById(list: seq<CommentView>, updated: CommentView): (r: seq<CommentView>)
    ensures |r| == |list|
    ensures forall i :: 0 <= i < |list| ==> r[i] == (if list[i].id == updated.id then updated else list[i])
  {
    if list == [] then []
    else [if list[0].id == updated.id then updated else list[0]] + ReplaceById(list[1..], updated)
  }

  /** `list.filter(c => c._id !== id)`. */
  function RemoveById(list: seq<CommentView>, id: int): (r: seq<CommentView>)
    ensures forall c :: c in r <==> c in list && c.id != id
    ensures |r| <= |list|
  {
    if list == [] then []
    else (if list[0].id == id then [] else [list[0]]) + RemoveById(list[1..], id)
  }

  /** Filtering distributes over concatenation, so the kept entries stay in their order. */
  lemma {:induction false} RemoveByIdOfConcat(a: seq<CommentView>, b: seq<CommentView>, id: int)
    ensures RemoveById(a + b, id) == RemoveById(a, id) + RemoveById(b, id)
  {
    if a == [] {
      assert a + b == b;
    } else {
      assert (a + b)[1..] == a[1..] + b;
      RemoveByIdOfConcat(a[1..], b, id);
    }
  }

  /** Removing an id nobody has changes nothing; removing twice is removing once. */
  lemma {:induction false} RemoveByIdAbsent(list: seq<CommentView>, id: int)
    requires forall i :: 0 <= i < |list| ==> list[i].id != id
    ensures RemoveById(list, id) == list
  {
    if list != [] {
      RemoveByIdAbsent(list[1..], id);
    }
  }

  lemma RemoveByIdIdempotent(list: seq<CommentView>, id: int)
    ensures RemoveById(RemoveById(list, id), id) == RemoveById(list, id)
  {
    var r := RemoveById(list, id);
    assert forall i :: 0 <= i < |r| ==> r[i] in r;
    RemoveByIdAbsent(r, id);
  }

  /**
   * The label of the load-replies button: the reply count before any page was
   * loaded, "Show more replies" afterwards.
   */
  datatype ButtonLabel = ShowCount(count: nat, noun: string) | ShowMoreReplies

  /**
   * The load-replies button of a thread whose comment carries `repliesCount`,
   * given the loading flag and the end-of-pagination flag (`None` before the
   * first page): `None` when the button is hidden, its label otherwise.
   */
  function LoadRepliesButton(repliesCount: Option<nat>, loading: bool, paginationEnd: Option<bool>): (b: Option<ButtonLabel>)
    ensures b.Some? <==> repliesCount.Some? && repliesCount.value != 0 && !loading && paginationEnd != Some(true)
    ensures b.Some? ==> (b.value.ShowCount? <==> paginationEnd.None?)
    ensures b.Some? && b.value.ShowCount? ==>
      b.value.count == repliesCount.value && (b.value.noun == "reply" <==> repliesCount.value == 1)
  {
    var shown := match repliesCount
      case Some(n) => n != 0 && !loading && paginationEnd != Some(true)
      case None => false;
    if !shown then None
    else if paginationEnd.None? then Some(ShowCount(repliesCount.value, if repliesCount.value == 1 then "reply" else "replies"))
    else Some(ShowMoreReplies)
  }

  /**
   * The state of one thread. `replies` came from the server, `localReplies`
   * were created here since the last successful load.
   */
  class Thread {
    const comment: CommentView
    var replies: seq<CommentView>
    var repliesLoading: bool
    var repliesLoadingIsError: bool
    var repliesPaginationEnd: Option<bool>
    var localReplies: seq<CommentView>

    constructor (comment: CommentView)
      ensures this.comment == comment
      ensures replies == [] && localReplies == []
      ensures !repliesLoading && !repliesLoadingIsError && repliesPaginationEnd == None
    {
      this.comment := comment;
      replies := [];
      repliesLoading := false;
      repliesLoadingIsError := false;
      repliesPaginationEnd := None;
      localReplies := [];
    }

    /** The button shown under the loaded replies, if any. */
    function Button(): (b: Option<ButtonLabel>)
      reads this
      ensures b.Some? ==> (b.value.ShowCount? <==> repliesPaginationEnd.None?)
      ensures b.Some? <==> comment.repliesCount.Some? && comment.repliesCount.value != 0
                           && !repliesLoading && repliesPaginationEnd != Some(true)
    {
      LoadRepliesButton(comment.repliesCount, repliesLoading, repliesPaginationEnd)
    }

    /**
     * `loadNextRepliesPage` up to its `await`: the request continues after the
     * last loaded reply, the flags switch to loading, and the list of replies
     * the completion will extend is the one seen now.
     */
    method BeginRepliesLoad() returns (continueAfterId: Option<int>, captured: seq<CommentView>)
      modifies this
      ensures continueAfterId == LastId(old(replies))
      ensures continueAfterId.Some? ==> continueAfterId.value == old(replies)[|old(replies)| - 1].id
      ensures captured == old(replies)
      ensures repliesLoading && !repliesLoadingIsError
      ensures replies == old(replies) && localReplies == old(localReplies)
      ensures repliesPaginationEnd == old(repliesPaginationEnd)
    {
      continueAfterId := LastId(replies);
      captured := replies;
      repliesLoading := true;
      repliesLoadingIsError := false;
    }

    /**
     * `loadNextRepliesPage` after its `await`. On success the page is appended
     * to the replies captured when the request began (changes made to
     * `replies` in between are overwritten), the end flag is stored and the
     * local replies are cleared, as the server's pages now hold them. On
     * failure only the error flag is set. Loading stops either way.
     */
    method CompleteRepliesLoad(captured: seq<CommentView>, outcome: LoadOutcome)
      modifies this
      ensures outcome.Loaded? ==>
        && replies == captured + outcome.response.comments
        && repliesPaginationEnd == Some(outcome.response.endOfPaginationReached)
        && localReplies == []
        && repliesLoadingIsError == old(repliesLoadingIsError)
      ensures outcome.LoadFailed? ==>
        && replies == old(replies)
        && repliesPaginationEnd == old(repliesPaginationEnd)
        && localReplies == old(localReplies)
        && repliesLoadingIsError
      ensures !repliesLoading
    {
      match outcome {
        case Loaded(response) =>
          replies := captured + response.comments;
          repliesPaginationEnd := Some(response.endOfPaginationReached);
          localReplies := [];
        case LoadFailed =>
          repliesLoadingIsError := true;
      }
      repliesLoading := false;
    }

    /**
     * The completion with a functional state update, as the comments section
     * does it: the page is appended to the replies as they are when the
     * answer arrives, so edits and deletions made during the request survive.
     */
    method CompleteRepliesLoadOnCurrent(outcome: LoadOutcome)
      modifies this
      ensures outcome.Loaded? ==>
        && replies == old(replies) + outcome.response.comments
        && repliesPaginationEnd == Some(outcome.response.endOfPaginationReached)
        && localReplies == []
        && repliesLoadingIsError == old(repliesLoadingIsError)
      ensures outcome.LoadFailed? ==>
        && replies == old(replies)
        && repliesPaginationEnd == old(repliesPaginationEnd)
        && localReplies == old(localReplies)
        && repliesLoadingIsError
      ensures !repliesLoading
    {
      match outcome {
        case Loaded(response) =>
          replies := replies + response.comments;
          repliesPaginationEnd := Some(response.endOfPaginationReached);
          localReplies := [];
        case LoadFailed =>
          repliesLoadingIsError := true;
      }
      repliesLoading := false;
    }

    /** `handleReplyCreated`: a new reply joins the local replies at the end. */
    method HandleReplyCreated(reply: CommentView)
      modifies this
      ensures localReplies == old(localReplies) + [reply]
      ensures replies == old(replies)
      ensures repliesLoading == old(repliesLoading) && repliesLoadingIsError == old(repliesLoadingIsError)
      ensures repliesPaginationEnd == old(repliesPaginationEnd)
    {
      localReplies := localReplies + [reply];
    }

    /** `handleRemoteReplyUpdate`: every loaded reply with the edited reply's id is replaced by it. */
    method HandleRemoteReplyUpdate(updated: CommentView)
      modifies this
      ensures |replies| == |old(replies)|
      ensures forall i :: 0 <= i < |replies| ==>
        replies[i] == (if old(replies)[i].id == updated.id then updated else old(replies)[i])
      ensures localReplies == old(localReplies)
      ensures repliesLoading == old(repliesLoading) && repliesLoadingIsError == old(repliesLoadingIsError)
      ensures repliesPaginationEnd == old(repliesPaginationEnd)
    {
      replies := ReplaceById(replies, updated);
    }

    /** `handleRemoteReplyDeleted`: the loaded replies with the deleted reply's id disappear, the rest keep their order. */
    method HandleRemoteReplyDeleted(deleted: CommentView)
      modifies this
      ensures replies == RemoveById(old(replies), deleted.id)
      ensures forall c :: c in replies <==> c in old(replies) && c.id != deleted.id
      ensures localReplies == old(localReplies)
      ensures repliesLoading == old(repliesLoading) && repliesLoadingIsError == old(repliesLoadingIsError)
      ensures repliesPaginationEnd == old(repliesPaginationEnd)
    {
      replies := RemoveById(replies, deleted.id);
    }

    /** `handleLocalReplyUpdated`: the same replacement on the local replies. */
    method HandleLocalReplyUpdated(updated: CommentView)
      modifies this
      ensures |localReplies| == |old(localReplies)|
      ensures forall i :: 0 <= i < |localReplies| ==>
        localReplies[i] == (if old(localReplies)[i].id == updated.id then updated else old(localReplies)[i])
      ensures replies == old(replies)
      ensures repliesLoading == old(repliesLoading) && repliesLoadingIsError == old(repliesLoadingIsError)
      ensures repliesPaginationEnd == old(repliesPaginationEnd)
    {
      localReplies := ReplaceById(localReplies, updated);
    }

    /** `handleLocalReplyDeleted`: the same removal on the local replies. */
    method HandleLocalReplyDeleted(deleted: CommentView)
      modifies this
      ensures localReplies == RemoveById(old(localReplies), deleted.id)
      ensures forall c :: c in localReplies <==> c in old(localReplies) && c.id != deleted.id
      ensures replies == old(replies)
      ensures repliesLoading == old(repliesLoading) && repliesLoadingIsError == old(repliesLoadingIsError)
      ensures repliesPaginationEnd == old(repliesPaginationEnd)
    {
      localReplies := RemoveById(localReplies, deleted.id);
    }
  }

  /**
   * A reply deleted while the next page is loading comes back when the page
   * arrives: the completion appends to the replies captured before the
   * request, which still hold it.
   */
  method DeletedDuringLoadReappears() returns (deleted: CommentView, afterDelete: seq<CommentView>, shown: seq<CommentView>)
    ensures deleted !in afterDelete
    ensures deleted in shown
  {
    var t := new Thread(CommentView(0, "top", Some(2)));
    deleted := CommentView(1, "first", None);
    var _, first := t.BeginRepliesLoad();
    t.CompleteRepliesLoad(first, Loaded(CommentPage([deleted], false)));
    var _, captured := t.BeginRepliesLoad();
    t.HandleRemoteReplyDeleted(deleted);
    afterDelete := t.replies;
    t.CompleteRepliesLoad(captured, Loaded(CommentPage([CommentView(2, "second", None)], true)));
    shown := t.replies;
  }

  /**
   * With the completion that appends to the current replies, a reply deleted
   * during the load stays deleted whenever the page does not hold it.
   */
  method DeletedDuringLoadStaysDeleted(t: Thread, deleted: CommentView, page: CommentPage) returns (shown: seq<CommentView>)
    requires deleted !in page.comments
    modifies t
    ensures deleted !in shown
    ensures shown == t.replies
  {
    var _, _ := t.BeginRepliesLoad();
    t.HandleRemoteReplyDeleted(deleted);
    t.CompleteRepliesLoadOnCurrent(Loaded(page));
    shown := t.replies;
  }
}
