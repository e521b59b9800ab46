/**
 * Comments as the frontend holds them, and the answer of the comment
 * endpoints as the frontend receives it.
 */
module ClientComments {
  import opened Options

  /**
   * A comment on the client. `repliesCount` is present on the top-level
   * comments of a listing and absent on replies and on freshly created
   * comments.
   */
  datatype CommentView = CommentView(id: int, text: string, repliesCount: Option<nat>)

  /** The body of a listing response: one page and the end-of-pagination flag. */
  datatype CommentPage = CommentPage(comments: seq<CommentView>, endOfPaginationReached: bool)

  /** How an awaited listing request ends: with a page, or by throwing. */
  datatype LoadOutcome = Loaded(response: CommentPage) | LoadFailed

  /** `list[list.length - 1]?._id`: the id of the last entry, if any. */
  function LastId(list: seq<CommentView>): (r: Option<int>)
    ensures r.None? <==> list == []
    ensures r.Some? ==> list != [] && r.value == list[|list| - 1].id
  {
    if list == [] then None else Some(list[|list| - 1].id)
  }
}
