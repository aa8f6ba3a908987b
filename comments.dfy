/** The Comment model: its validations and the `counter_cache: true` on
    `belongs_to :post`, which keeps `posts.comments_count` in step with the
    comments table one row at a time. */
module Comments {
  import opened Wrappers
  import opened Text
  import opened Schema

  /** `belongs_to :post`, `belongs_to :user` and `validates :body, presence: true`. */
  function CommentErrors(postExists: bool, userId: Option<Id>, body: string): (errs: seq<ValidationError>)
    ensures errs == [] <==> postExists && userId.Some? && !IsBlank(body)
    ensures BodyBlank in errs <==> IsBlank(body)
  {
    (if postExists then [] else [PostMustExist])
      + (if userId.Some? then [] else [UserMustExist])
      + (if IsBlank(body) then [BodyBlank] else [])
  }

  /** The counter cache's write, `Post.update_counters(post_id, comments_count: delta)`:
      UPDATE posts SET comments_count = COALESCE(comments_count, 0) + delta WHERE id = post_id.
      Only that post's `comments_count` column is written. */
  function AdjustCount(posts: seq<PostRow>, postId: Id, delta: int): (r: seq<PostRow>)
    ensures |r| == |posts|
  {
    seq(|posts|, i requires 0 <= i < |posts| =>
      if posts[i].id == postId
      then posts[i].(commentsCount := Some(posts[i].commentsCount.GetOr(0) + delta))
      else posts[i])
  }

  /** The counter cache writes no column but `comments_count` and no row
      but the comment's post. */
  lemma AdjustCountFrame(posts: seq<PostRow>, postId: Id, delta: int)
    ensures var r := AdjustCount(posts, postId, delta);
      && (forall i :: 0 <= i < |posts| ==> r[i].(commentsCount := posts[i].commentsCount) == posts[i])
      && (forall i :: 0 <= i < |posts| && posts[i].id != postId ==> r[i] == posts[i])
  {
  }

  /** A cached count moves by exactly `delta` on the comment's own post; a
      NULL count is read as 0, so it becomes `delta`. */
  lemma AdjustCountStep(posts: seq<PostRow>, postId: Id, delta: int, i: nat)
    requires i < |posts| && posts[i].id == postId
    ensures AdjustCount(posts, postId, delta)[i].commentsCount == Some(posts[i].commentsCount.GetOr(0) + delta)
    ensures posts[i].commentsCount.None? ==> AdjustCount(posts, postId, delta)[i].commentsCount == Some(delta)
    ensures posts[i].commentsCount.Some? ==>
      AdjustCount(posts, postId, delta)[i].commentsCount == Some(posts[i].commentsCount.value + delta)
  {
  }

  /** Creating a comment keeps every cached count equal to the live count. */
  lemma CreateKeepsCountsAccurate(posts: seq<PostRow>, comments: seq<CommentRow>, c: CommentRow)
    requires CountsAccurate(posts, comments)
    ensures CountsAccurate(AdjustCount(posts, c.postId, 1), comments + [c])
  {
    var after := AdjustCount(posts, c.postId, 1);
    AdjustCountFrame(posts, c.postId, 1);
    forall i | 0 <= i < |posts|
      ensures after[i].commentsCount == Some(CountComments(comments + [c], after[i].id))
    {
      assert (comments + [c])[..|comments|] == comments;
    }
  }

  /** Destroying a comment keeps every cached count equal to the live count. */
  lemma DestroyKeepsCountsAccurate(posts: seq<PostRow>, comments: seq<CommentRow>, k: nat)
    requires k < |comments|
    requires CountsAccurate(posts, comments)
    ensures CountsAccurate(AdjustCount(posts, comments[k].postId, -1), RemoveAt(comments, k))
  {
    var after := AdjustCount(posts, comments[k].postId, -1);
    AdjustCountFrame(posts, comments[k].postId, -1);
    forall i | 0 <= i < |posts|
      ensures after[i].commentsCount == Some(CountComments(RemoveAt(comments, k), after[i].id))
    {
      CountCommentsRemoveAt(comments, k, posts[i].id);
    }
  }
}
