/** `dependent: :destroy` on a post's comments, post_tags and ratings, and the
    join rows of `has_and_belongs_to_many :readers`: destroying a post deletes
    every row that points at it, and nothing else. */
module Cascade {
  import opened Wrappers
  import opened Schema

  predicate UniquePostIds(posts: seq<PostRow>) {
    forall i, j :: 0 <= i < j < |posts| ==> posts[i].id != posts[j].id
  }

  /** The comments that survive the post's destruction. */
  function CommentsNotOnPost(comments: seq<CommentRow>, postId: Id): (r: seq<CommentRow>)
    ensures |r| <= |comments|
  {
    if |comments| == 0 then []
    else
      var init := CommentsNotOnPost(comments[..|comments| - 1], postId);
      var last := comments[|comments| - 1];
      if last.postId == postId then init else init + [last]
  }

  /** The ratings that survive the post's destruction. */
  function RatingsNotOnPost(ratings: seq<RatingRow>, postId: Id): (r: seq<RatingRow>)
    ensures |r| <= |ratings|
  {
    if |ratings| == 0 then []
    else
      var init := RatingsNotOnPost(ratings[..|ratings| - 1], postId);
      var last := ratings[|ratings| - 1];
      if last.postId == postId then init else init + [last]
  }

  /** Exactly the comments on other posts survive. */
  lemma {:induction false} CommentsNotOnPostMembers(comments: seq<CommentRow>, postId: Id)
    ensures forall x :: x in CommentsNotOnPost(comments, postId) <==> x in comments && x.postId != postId
    decreases |comments|
  {
    if |comments| > 0 {
      var front := comments[..|comments| - 1];
      CommentsNotOnPostMembers(front, postId);
      assert comments == front + [comments[|comments| - 1]];
    }
  }

  /** Exactly the ratings of other posts survive. */
  lemma {:induction false} RatingsNotOnPostMembers(ratings: seq<RatingRow>, postId: Id)
    ensures forall x :: x in RatingsNotOnPost(ratings, postId) <==> x in ratings && x.postId != postId
    decreases |ratings|
  {
    if |ratings| > 0 {
      var front := ratings[..|ratings| - 1];
      RatingsNotOnPostMembers(front, postId);
      assert ratings == front + [ratings[|ratings| - 1]];
    }
  }

  /** No other post's comment count changes when this post's comments go. */
  lemma {:induction false} CommentsNotOnPostCounts(comments: seq<CommentRow>, postId: Id, q: Id)
    requires q != postId
    ensures CountComments(CommentsNotOnPost(comments, postId), q) == CountComments(comments, q)
    decreases |comments|
  {
    if |comments| > 0 {
      var init := comments[..|comments| - 1];
      var last := comments[|comments| - 1];
      CommentsNotOnPostCounts(init, postId, q);
      var r := CommentsNotOnPost(init, postId);
      if last.postId != postId {
        assert (r + [last])[..|r|] == r;
      }
    }
  }

  /** No other post's ratings, hence no other post's average, change when
      this post's ratings go. */
  lemma {:induction false} RatingsNotOnPostAggregates(ratings: seq<RatingRow>, postId: Id, q: Id)
    requires q != postId
    ensures RatingCount(RatingsNotOnPost(ratings, postId), q) == RatingCount(ratings, q)
    ensures StarsSum(RatingsNotOnPost(ratings, postId), q) == StarsSum(ratings, q)
    decreases |ratings|
  {
    if |ratings| > 0 {
      var init := ratings[..|ratings| - 1];
      var last := ratings[|ratings| - 1];
      RatingsNotOnPostAggregates(init, postId, q);
      var r := RatingsNotOnPost(init, postId);
      if last.postId != postId {
        var r' := r + [last];
        assert RatingsNotOnPost(ratings, postId) == r';
        assert r'[..|r|] == r && r'[|r|] == last;
        assert RatingCount(r', q) == RatingCount(r, q) + (if last.postId == q then 1 else 0);
        assert StarsSum(r', q) == StarsSum(r, q) + (if last.postId == q then last.stars else 0);
      } else {
        assert RatingsNotOnPost(ratings, postId) == r;
      }
    }
  }

  function PostTagsNotOnPost(links: seq<PostTag>, postId: Id): (r: seq<PostTag>)
    ensures |r| <= |links|
  {
    if |links| == 0 then []
    else
      var init := PostTagsNotOnPost(links[..|links| - 1], postId);
      var last := links[|links| - 1];
      if last.postId == postId then init else init + [last]
  }

  function ReadMarksNotOnPost(marks: seq<ReadMark>, postId: Id): (r: seq<ReadMark>)
    ensures |r| <= |marks|
  {
    if |marks| == 0 then []
    else
      var init := ReadMarksNotOnPost(marks[..|marks| - 1], postId);
      var last := marks[|marks| - 1];
      if last.postId == postId then init else init + [last]
  }

  /** Exactly the taggings of other posts survive. */
  lemma {:induction false} PostTagsNotOnPostMembers(links: seq<PostTag>, postId: Id)
    ensures forall x :: x in PostTagsNotOnPost(links, postId) <==> x in links && x.postId != postId
    decreases |links|
  {
    if |links| > 0 {
      var front := links[..|links| - 1];
      PostTagsNotOnPostMembers(front, postId);
      assert links == front + [links[|links| - 1]];
    }
  }

  /** Exactly the read marks on other posts survive. */
  lemma {:induction false} ReadMarksNotOnPostMembers(marks: seq<ReadMark>, postId: Id)
    ensures forall x :: x in ReadMarksNotOnPost(marks, postId) <==> x in marks && x.postId != postId
    decreases |marks|
  {
    if |marks| > 0 {
      var front := marks[..|marks| - 1];
      ReadMarksNotOnPostMembers(front, postId);
      assert marks == front + [marks[|marks| - 1]];
    }
  }

  /** The ids of the post's comments, whose ratings by users go with them. */
  function CommentIdsOnPost(comments: seq<CommentRow>, postId: Id): set<Id> {
    set c | c in comments && c.postId == postId :: c.id
  }

  /** Destroying a post leaves every remaining post's cached count and
      average as exact as they were. */
  lemma DestroyPostKeepsAggregatesAccurate(posts: seq<PostRow>, comments: seq<CommentRow>,
                                          ratings: seq<RatingRow>, k: nat)
    requires k < |posts| && UniquePostIds(posts)
    requires CountsAccurate(posts, comments) && AveragesAccurate(posts, ratings)
    ensures CountsAccurate(RemoveAt(posts, k), CommentsNotOnPost(comments, posts[k].id))
    ensures AveragesAccurate(RemoveAt(posts, k), RatingsNotOnPost(ratings, posts[k].id))
  {
    var after := RemoveAt(posts, k);
    forall i | 0 <= i < |after|
      ensures after[i].id != posts[k].id
      ensures CountComments(CommentsNotOnPost(comments, posts[k].id), after[i].id) == CountComments(comments, after[i].id)
      ensures Average(RatingsNotOnPost(ratings, posts[k].id), after[i].id) == Average(ratings, after[i].id)
    {
      if i < k { assert after[i] == posts[i]; } else { assert after[i] == posts[i + 1]; }
      CommentsNotOnPostCounts(comments, posts[k].id, after[i].id);
      RatingsNotOnPostAggregates(ratings, posts[k].id, after[i].id);
    }
  }
}
