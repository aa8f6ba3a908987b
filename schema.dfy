/** The rows of the tables the model layer touches, and the two aggregates
    the posts table caches: COUNT(*) of a post's comments and AVG(stars) of
    its ratings. AVG is kept exact (a `real`, that is a rational), and SQL
    NULL is `None`. */
module Schema {
  import opened Wrappers

  type Id = nat

  /** `posts`: `comments_count` is nullable until the NOT NULL migration,
      `rating_average` stays nullable. */
  datatype PostRow = PostRow(
    id: Id,
    topicId: Id,
    userId: Id,
    title: string,
    body: string,
    commentsCount: Option<int>,
    ratingAverage: Option<real>)

  datatype CommentRow = CommentRow(id: Id, postId: Id, userId: Id, body: string)

  datatype RatingRow = RatingRow(id: Id, postId: Id, stars: int)

  datatype CommentRatingRow = CommentRatingRow(id: Id, userId: Id, commentId: Id, stars: int)

  /** `post_tags`: one row links a post to a tag. */
  datatype PostTag = PostTag(postId: Id, tagId: Id)

  /** `posts_users_read_status`: presence means the user has read the post. */
  datatype ReadMark = ReadMark(userId: Id, postId: Id)

  /** The range both rating validators accept (`inclusion: { in: 1..5 }`). */
  predicate StarsInRange(stars: int) {
    1 <= stars <= 5
  }

  /** SELECT COUNT(*) FROM comments WHERE comments.post_id = postId */
  function CountComments(comments: seq<CommentRow>, postId: Id): (n: nat)
    ensures n <= |comments|
    ensures n == 0 <==> forall i :: 0 <= i < |comments| ==> comments[i].postId != postId
  {
    if |comments| == 0 then 0
    else
      CountComments(comments[..|comments| - 1], postId)
        + (if comments[|comments| - 1].postId == postId then 1 else 0)
  }

  /** The number of a post's ratings. */
  function RatingCount(ratings: seq<RatingRow>, postId: Id): (n: nat)
    ensures n <= |ratings|
  {
    if |ratings| == 0 then 0
    else
      RatingCount(ratings[..|ratings| - 1], postId)
        + (if ratings[|ratings| - 1].postId == postId then 1 else 0)
  }

  /** The sum of a post's ratings' stars. */
  function StarsSum(ratings: seq<RatingRow>, postId: Id): int {
    if |ratings| == 0 then 0
    else
      StarsSum(ratings[..|ratings| - 1], postId)
        + (if ratings[|ratings| - 1].postId == postId then ratings[|ratings| - 1].stars else 0)
  }

  /** SELECT AVG(stars) FROM ratings WHERE ratings.post_id = postId:
      the exact mean, or NULL when the post has no ratings. */
  function Average(ratings: seq<RatingRow>, postId: Id): (avg: Option<real>)
    ensures avg.None? <==> RatingCount(ratings, postId) == 0
  {
    var n := RatingCount(ratings, postId);
    if n == 0 then None else Some(StarsSum(ratings, postId) as real / n as real)
  }

  predicate AllStarsInRange(ratings: seq<RatingRow>) {
    forall i :: 0 <= i < |ratings| ==> StarsInRange(ratings[i].stars)
  }

  /** With every star in 1..5, the sum of n stars lies between n and 5n. */
  lemma {:induction false} StarsSumBounds(ratings: seq<RatingRow>, postId: Id)
    requires AllStarsInRange(ratings)
    ensures RatingCount(ratings, postId) <= StarsSum(ratings, postId) <= 5 * RatingCount(ratings, postId)
    decreases |ratings|
  {
    if |ratings| > 0 {
      StarsSumBounds(ratings[..|ratings| - 1], postId);
    }
  }

  /** A non-NULL average of valid ratings lies in [1, 5]. */
  lemma AverageInRange(ratings: seq<RatingRow>, postId: Id)
    requires AllStarsInRange(ratings)
    ensures Average(ratings, postId).Some? ==> 1.0 <= Average(ratings, postId).value <= 5.0
  {
    var n := RatingCount(ratings, postId);
    if n > 0 {
      StarsSumBounds(ratings, postId);
      var s := StarsSum(ratings, postId);
      assert n as real <= s as real <= 5.0 * n as real;
      MeanBounds(s as real, n as real);
    }
  }

  lemma MeanBounds(s: real, n: real)
    requires n > 0.0 && n <= s <= 5.0 * n
    ensures 1.0 <= s / n <= 5.0
  {
    assert s / n * n == s;
  }

  /** The field errors ActiveRecord reports, one per failed validation. */
  datatype ValidationError =
    | TopicMustExist
    | UserMustExist
    | PostMustExist
    | CommentMustExist
    | TitleBlank
    | TitleTooLong
    | BodyBlank
    | StarsBlank
    | StarsNotIncluded
    | AlreadyRated

  /** `validates :stars, presence: true, inclusion: { in: 1..5 }`: a missing
      value fails both checks, an out-of-range one fails the inclusion. */
  function StarsErrors(stars: Option<int>): (errs: seq<ValidationError>)
    ensures errs == [] <==> stars.Some? && StarsInRange(stars.value)
    ensures StarsBlank in errs <==> stars.None?
  {
    (if stars.None? then [StarsBlank] else [])
      + (if stars.None? || !StarsInRange(stars.value) then [StarsNotIncluded] else [])
  }

  /** Why a write did not happen: the record failed validation, or the row
      to change does not exist (`find` raising RecordNotFound). */
  datatype WriteError = Invalid(errors: seq<ValidationError>) | NotFound

  function PostIds(posts: seq<PostRow>): set<Id> {
    set i | 0 <= i < |posts| :: posts[i].id
  }

  function CommentIds(comments: seq<CommentRow>): set<Id> {
    set i | 0 <= i < |comments| :: comments[i].id
  }

  /** `xs` with the element at `i` deleted (DELETE ... WHERE id = ...). */
  function RemoveAt<T>(xs: seq<T>, i: nat): (r: seq<T>)
    requires i < |xs|
    ensures |r| == |xs| - 1
    ensures forall k :: 0 <= k < i ==> r[k] == xs[k]
    ensures forall k :: i <= k < |r| ==> r[k] == xs[k + 1]
  {
    xs[..i] + xs[i + 1..]
  }

  /** Every post's cached `comments_count` is the live number of its comments. */
  predicate CountsAccurate(posts: seq<PostRow>, comments: seq<CommentRow>) {
    forall i :: 0 <= i < |posts| ==> posts[i].commentsCount == Some(CountComments(comments, posts[i].id))
  }

  /** Every post's cached `rating_average` is the mean of its ratings, NULL when it has none. */
  predicate AveragesAccurate(posts: seq<PostRow>, ratings: seq<RatingRow>) {
    forall i :: 0 <= i < |posts| ==> posts[i].ratingAverage == Average(ratings, posts[i].id)
  }

  lemma {:induction false} CountCommentsConcat(a: seq<CommentRow>, b: seq<CommentRow>, postId: Id)
    ensures CountComments(a + b, postId) == CountComments(a, postId) + CountComments(b, postId)
    decreases |b|
  {
    if |b| == 0 {
      assert a + b == a;
    } else {
      CountCommentsConcat(a, b[..|b| - 1], postId);
      assert (a + b)[..|a + b| - 1] == a + b[..|b| - 1];
    }
  }

  /** Deleting one comment lowers its own post's count by one and no other. */
  lemma CountCommentsRemoveAt(comments: seq<CommentRow>, i: nat, postId: Id)
    requires i < |comments|
    ensures CountComments(RemoveAt(comments, i), postId)
      == CountComments(comments, postId) - (if comments[i].postId == postId then 1 else 0)
  {
    var a, b := comments[..i], comments[i + 1..];
    assert comments == (a + [comments[i]]) + b;
    CountCommentsConcat(a + [comments[i]], b, postId);
    CountCommentsConcat(a, b, postId);
  }

  /** A post no rating points at has no ratings to count. */
  lemma {:induction false} RatingCountAbsent(ratings: seq<RatingRow>, postId: Id)
    requires forall i :: 0 <= i < |ratings| ==> ratings[i].postId != postId
    ensures RatingCount(ratings, postId) == 0
    decreases |ratings|
  {
    if |ratings| > 0 {
      RatingCountAbsent(ratings[..|ratings| - 1], postId);
    }
  }

  lemma {:induction false} RatingAggregatesConcat(a: seq<RatingRow>, b: seq<RatingRow>, postId: Id)
    ensures RatingCount(a + b, postId) == RatingCount(a, postId) + RatingCount(b, postId)
    ensures StarsSum(a + b, postId) == StarsSum(a, postId) + StarsSum(b, postId)
    decreases |b|
  {
    if |b| == 0 {
      assert a + b == a;
    } else {
      RatingAggregatesConcat(a, b[..|b| - 1], postId);
      assert (a + b)[..|a + b| - 1] == a + b[..|b| - 1];
    }
  }

  /** Rewriting one rating row in place leaves the average of every post the
      old and the new row do not belong to unchanged. */
  lemma AverageReplaceAt(ratings: seq<RatingRow>, i: nat, r: RatingRow, postId: Id)
    requires i < |ratings|
    requires ratings[i].postId != postId && r.postId != postId
    ensures Average(ratings[i := r], postId) == Average(ratings, postId)
  {
    var a, b := ratings[..i], ratings[i + 1..];
    assert ratings == (a + [ratings[i]]) + b;
    assert ratings[i := r] == (a + [r]) + b;
    RatingAggregatesConcat(a + [ratings[i]], b, postId);
    RatingAggregatesConcat(a + [r], b, postId);
    assert (a + [r])[..|a|] == a;
    assert (a + [ratings[i]])[..|a|] == a;
  }

  /** Deleting a rating row takes it out of its own post's count and sum and
      out of no other post's. */
  lemma RatingAggregatesRemoveAt(ratings: seq<RatingRow>, i: nat, postId: Id)
    requires i < |ratings|
    ensures RatingCount(RemoveAt(ratings, i), postId)
      == RatingCount(ratings, postId) - (if ratings[i].postId == postId then 1 else 0)
    ensures StarsSum(RemoveAt(ratings, i), postId)
      == StarsSum(ratings, postId) - (if ratings[i].postId == postId then ratings[i].stars else 0)
  {
    var a, b := ratings[..i], ratings[i + 1..];
    assert ratings == (a + [ratings[i]]) + b;
    RatingAggregatesConcat(a + [ratings[i]], b, postId);
    RatingAggregatesConcat(a, b, postId);
    assert (a + [ratings[i]])[..|a|] == a;
  }

  /** Deleting a rating row leaves the average of every other post unchanged. */
  lemma AverageRemoveAt(ratings: seq<RatingRow>, i: nat, postId: Id)
    requires i < |ratings|
    requires ratings[i].postId != postId
    ensures Average(RemoveAt(ratings, i), postId) == Average(ratings, postId)
  {
    RatingAggregatesRemoveAt(ratings, i, postId);
  }
}
