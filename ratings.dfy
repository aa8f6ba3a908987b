/** The Rating model: the stars validation and `update_post_rating_average`,
    run after every save and every destroy, which overwrites the owning
    post's `rating_average` with AVG(stars) over the post's ratings. */
module Ratings {
  import opened Wrappers
  import opened Schema

  /** `belongs_to :post` and the stars validation. */
  function RatingErrors(postExists: bool, stars: Option<int>): (errs: seq<ValidationError>)
    ensures errs == [] <==> postExists && stars.Some? && StarsInRange(stars.value)
  {
    (if postExists then [] else [PostMustExist]) + StarsErrors(stars)
  }

  /** `post.update_column(:rating_average, avg)`: writes that one column of
      that one post and nothing else. */
  function SetAverage(posts: seq<PostRow>, postId: Id, avg: Option<real>): (r: seq<PostRow>)
    ensures |r| == |posts|
  {
    seq(|posts|, i requires 0 <= i < |posts| =>
      if posts[i].id == postId then posts[i].(ratingAverage := avg) else posts[i])
  }

  /** The hook writes `avg` into that post's `rating_average` and touches
      no other column and no other row. */
  lemma SetAverageFrame(posts: seq<PostRow>, postId: Id, avg: Option<real>)
    ensures var r := SetAverage(posts, postId, avg);
      && (forall i :: 0 <= i < |posts| ==> r[i].(ratingAverage := posts[i].ratingAverage) == posts[i])
      && (forall i :: 0 <= i < |posts| && posts[i].id != postId ==> r[i] == posts[i])
      && (forall i :: 0 <= i < |posts| && posts[i].id == postId ==> r[i].ratingAverage == avg)
  {
  }

  /** The callback's effect: recompute the post's average over `ratings`. */
  function Recompute(posts: seq<PostRow>, ratings: seq<RatingRow>, postId: Id): seq<PostRow> {
    SetAverage(posts, postId, Average(ratings, postId))
  }

  /** If the ratings of every other post are unchanged, recomputing one
      post's average after a write leaves every cached average exact. */
  lemma RecomputeKeepsAveragesAccurate(posts: seq<PostRow>, before: seq<RatingRow>, after: seq<RatingRow>, postId: Id)
    requires AveragesAccurate(posts, before)
    requires forall i :: 0 <= i < |posts| && posts[i].id != postId ==>
      Average(after, posts[i].id) == Average(before, posts[i].id)
    ensures AveragesAccurate(Recompute(posts, after, postId), after)
  {
    SetAverageFrame(posts, postId, Average(after, postId));
  }

  /** A created rating changes only its own post's average. */
  lemma CreateKeepsAveragesAccurate(posts: seq<PostRow>, ratings: seq<RatingRow>, r: RatingRow)
    requires AveragesAccurate(posts, ratings)
    ensures AveragesAccurate(Recompute(posts, ratings + [r], r.postId), ratings + [r])
  {
    assert (ratings + [r])[..|ratings|] == ratings;
    RecomputeKeepsAveragesAccurate(posts, ratings, ratings + [r], r.postId);
  }

  /** A rating whose stars are rewritten in place changes only its own post's average. */
  lemma UpdateKeepsAveragesAccurate(posts: seq<PostRow>, ratings: seq<RatingRow>, k: nat, stars: int)
    requires k < |ratings|
    requires AveragesAccurate(posts, ratings)
    ensures AveragesAccurate(
      Recompute(posts, ratings[k := ratings[k].(stars := stars)], ratings[k].postId),
      ratings[k := ratings[k].(stars := stars)])
  {
    var r := ratings[k].(stars := stars);
    forall i | 0 <= i < |posts| && posts[i].id != ratings[k].postId
      ensures Average(ratings[k := r], posts[i].id) == Average(ratings, posts[i].id)
    {
      AverageReplaceAt(ratings, k, r, posts[i].id);
    }
    RecomputeKeepsAveragesAccurate(posts, ratings, ratings[k := r], ratings[k].postId);
  }

  /** A destroyed rating changes only its own post's average. */
  lemma DestroyKeepsAveragesAccurate(posts: seq<PostRow>, ratings: seq<RatingRow>, k: nat)
    requires k < |ratings|
    requires AveragesAccurate(posts, ratings)
    ensures AveragesAccurate(Recompute(posts, RemoveAt(ratings, k), ratings[k].postId), RemoveAt(ratings, k))
  {
    forall i | 0 <= i < |posts| && posts[i].id != ratings[k].postId
      ensures Average(RemoveAt(ratings, k), posts[i].id) == Average(ratings, posts[i].id)
    {
      AverageRemoveAt(ratings, k, posts[i].id);
    }
    RecomputeKeepsAveragesAccurate(posts, ratings, RemoveAt(ratings, k), ratings[k].postId);
  }

  /** Destroying a post's only rating leaves its average NULL, not 0. */
  lemma LastRatingGoneMeansNull(ratings: seq<RatingRow>, k: nat)
    requires k < |ratings|
    requires RatingCount(ratings, ratings[k].postId) == 1
    ensures Average(RemoveAt(ratings, k), ratings[k].postId) == None
  {
    RatingAggregatesRemoveAt(ratings, k, ratings[k].postId);
  }
}
