/** The database as the models see it: one mutable object holding every
    table. Each method performs one model write in place and is proved to
    leave exactly the tables the matching function of `Store` computes;
    what those functions keep (valid keys, exact caches) is proved there. */
module Storage {
  import opened Wrappers
  import opened Schema
  import opened Comments
  import opened Ratings
  import opened CommentRatings
  import opened Cascade
  import opened TagSync
  import opened Store

  class Database {
    var posts: seq<PostRow>
    var comments: seq<CommentRow>
    var ratings: seq<RatingRow>
    var commentRatings: seq<CommentRatingRow>
    var tags: seq<string>
    var postTags: seq<PostTag>
    var readMarks: seq<ReadMark>
    var nextPostId: Id
    var nextCommentId: Id
    var nextRatingId: Id
    var nextCommentRatingId: Id

    /** The current contents of every table. */
    function Snapshot(): Tables
      reads this
    {
      Tables(posts, comments, ratings, commentRatings, tags, postTags, readMarks,
             nextPostId, nextCommentId, nextRatingId, nextCommentRatingId)
    }

    constructor ()
      ensures Snapshot() == Empty
    {
      posts, comments, ratings, commentRatings := [], [], [], [];
      tags, postTags, readMarks := [], [], [];
      nextPostId, nextCommentId, nextRatingId, nextCommentRatingId := 0, 0, 0, 0;
    }

    method CreateComment(postId: Id, userId: Option<Id>, body: string) returns (r: Result<Id, seq<ValidationError>>)
      modifies this`comments, this`posts, this`nextCommentId
      ensures (Snapshot(), r) == CommentCreated(old(Snapshot()), postId, userId, body)
    {
      var errs := CommentErrors(postId in PostIds(posts), userId, body);
      if errs != [] {
        return Failure(errs);
      }
      var row := CommentRow(nextCommentId, postId, userId.value, body);
      comments := comments + [row];
      posts := AdjustCount(posts, postId, 1);
      nextCommentId := nextCommentId + 1;
      r := Success(row.id);
    }

    method DestroyComment(id: Id) returns (found: bool)
      modifies this`comments, this`posts, this`commentRatings
      ensures (Snapshot(), found) == CommentDestroyed(old(Snapshot()), id)
    {
      var k := FindComment(comments, id);
      if k.None? {
        return false;
      }
      var c := comments[k.value];
      commentRatings := WithoutRatingsOf(commentRatings, {id});
      comments := RemoveAt(comments, k.value);
      posts := AdjustCount(posts, c.postId, -1);
      found := true;
    }

    method CreateRating(postId: Id, stars: Option<int>) returns (r: Result<Id, seq<ValidationError>>)
      modifies this`ratings, this`posts, this`nextRatingId
      ensures (Snapshot(), r) == RatingCreated(old(Snapshot()), postId, stars)
    {
      var errs := RatingErrors(postId in PostIds(posts), stars);
      if errs != [] {
        return Failure(errs);
      }
      var row := RatingRow(nextRatingId, postId, stars.value);
      ratings := ratings + [row];
      nextRatingId := nextRatingId + 1;
      // after_save :update_post_rating_average
      posts := SetAverage(posts, postId, Average(ratings, postId));
      r := Success(row.id);
    }

    method UpdateRating(id: Id, stars: Option<int>) returns (r: Result<Id, WriteError>)
      modifies this`ratings, this`posts
      ensures (Snapshot(), r) == RatingUpdated(old(Snapshot()), id, stars)
    {
      var k := FindRating(ratings, id);
      if k.None? {
        return Failure(NotFound);
      }
      var postId := ratings[k.value].postId;
      var errs := RatingErrors(postId in PostIds(posts), stars);
      if errs != [] {
        return Failure(Invalid(errs));
      }
      ratings := ratings[k.value := ratings[k.value].(stars := stars.value)];
      posts := SetAverage(posts, postId, Average(ratings, postId));
      r := Success(id);
    }

    method DestroyRating(id: Id) returns (found: bool)
      modifies this`ratings, this`posts
      ensures (Snapshot(), found) == RatingDestroyed(old(Snapshot()), id)
    {
      var k := FindRating(ratings, id);
      if k.None? {
        return false;
      }
      var postId := ratings[k.value].postId;
      ratings := RemoveAt(ratings, k.value);
      // after_destroy :update_post_rating_average
      posts := SetAverage(posts, postId, Average(ratings, postId));
      found := true;
    }

    method RateComment(userId: Option<Id>, commentId: Id, stars: Option<int>) returns (r: Result<Id, seq<ValidationError>>)
      modifies this`commentRatings, this`nextCommentRatingId
      ensures (Snapshot(), r) == CommentRated(old(Snapshot()), userId, commentId, stars)
    {
      var errs := CommentRatingErrors(commentRatings, commentId in CommentIds(comments), userId, commentId, stars);
      if errs != [] {
        return Failure(errs);
      }
      commentRatings := commentRatings + [CommentRatingRow(nextCommentRatingId, userId.value, commentId, stars.value)];
      r := Success(nextCommentRatingId);
      nextCommentRatingId := nextCommentRatingId + 1;
    }

    method DestroyPost(id: Id) returns (found: bool)
      modifies this`posts, this`comments, this`ratings, this`commentRatings, this`postTags, this`readMarks
      ensures (Snapshot(), found) == PostDestroyed(old(Snapshot()), id)
    {
      var k := FindPost(posts, id);
      found := k.Some?;
      if found {
        commentRatings, comments, ratings, postTags, readMarks, posts :=
          WithoutRatingsOf(commentRatings, CommentIdsOnPost(comments, id)),
          CommentsNotOnPost(comments, id),
          RatingsNotOnPost(ratings, id),
          PostTagsNotOnPost(postTags, id),
          ReadMarksNotOnPost(readMarks, id),
          RemoveAt(posts, k.value);
      }
    }

    method InsertPost(topicId: Id, userId: Id, title: string, body: string) returns (id: Id)
      modifies this`posts, this`nextPostId
      ensures (Snapshot(), id) == PostInserted(old(Snapshot()), topicId, userId, title, body)
    {
      id := nextPostId;
      posts := posts + [PostRow(id, topicId, userId, title, body, Some(0), None)];
      nextPostId := nextPostId + 1;
    }

    method UpdatePost(id: Id, title: string, body: string) returns (found: bool)
      modifies this`posts
      ensures (Snapshot(), found) == PostUpdated(old(Snapshot()), id, title, body)
    {
      var k := FindPost(posts, id);
      if k.None? {
        return false;
      }
      posts := posts[k.value := posts[k.value].(title := title, body := body)];
      found := true;
    }

    /** `Tag.find_or_create_by(name: name)`: a scan of the tags table for
        the name, and an INSERT when it is missing. */
    method FindOrCreateTag(name: string) returns (id: Id)
      modifies this`tags
      ensures (tags, id) == FindOrCreate(old(tags), name)
    {
      var i := 0;
      while i < |tags| && tags[i] != name
        invariant 0 <= i <= |tags|
        invariant name !in tags[..i]
      {
        i := i + 1;
      }
      if i < |tags| {
        FirstMatchIsIndexOf(tags, name, i);
        id := i;
      } else {
        assert tags[..i] == tags;
        id := |tags|;
        tags := tags + [name];
      }
    }

    /** `PostTag.find_or_create_by(post_id:, tag_id:)`. */
    method FindOrCreatePostTag(postId: Id, tagId: Id)
      modifies this`postTags
      ensures postTags == FindOrCreateLink(old(postTags), PostTag(postId, tagId))
    {
      var link := PostTag(postId, tagId);
      var i := 0;
      while i < |postTags| && postTags[i] != link
        invariant 0 <= i <= |postTags|
        invariant link !in postTags[..i]
      {
        i := i + 1;
      }
      if i == |postTags| {
        assert postTags[..i] == postTags;
        postTags := postTags + [link];
      }
    }

    /** `tags.pluck(:id)` for one post. */
    function TagIdsOfPost(postId: Id): (r: seq<Id>)
      reads this
      ensures forall t :: t in r <==> PostTag(postId, t) in postTags
    {
      TagIdsOf(postTags, postId)
    }
  }

  /** The first position holding `name` is the one `Tag.find_by` returns. */
  lemma FirstMatchIsIndexOf(tags: seq<string>, name: string, i: nat)
    requires i < |tags| && tags[i] == name && name !in tags[..i]
    ensures IndexOf(tags, name) == Some(i)
  {
    assert name in tags;
  }
}
