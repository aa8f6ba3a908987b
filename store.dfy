/** The database the models write to, as a value: one field per table and
    the next primary key of each table. Every write a model performs (the
    comment counter cache, the rating average hook, the comment-rating gate,
    the destroy cascades, inserting and updating a post) is a function from
    the tables before to the tables after, and each is proved to keep the
    tables consistent and the cached aggregates exact. */
module Store {
  import opened Wrappers
  import opened Text
  import opened TagNames
  import opened Schema
  import opened Comments
  import opened Ratings
  import opened CommentRatings
  import opened Cascade
  import opened TagSync

  datatype Tables = Tables(
    posts: seq<PostRow>,
    comments: seq<CommentRow>,
    ratings: seq<RatingRow>,
    commentRatings: seq<CommentRatingRow>,
    tags: seq<string>,
    postTags: seq<PostTag>,
    readMarks: seq<ReadMark>,
    nextPostId: Id,
    nextCommentId: Id,
    nextRatingId: Id,
    nextCommentRatingId: Id)

  const Empty := Tables([], [], [], [], [], [], [], 0, 0, 0, 0)

  ghost predicate PostsValid(posts: seq<PostRow>, next: Id) {
    UniquePostIds(posts) && forall i :: 0 <= i < |posts| ==> posts[i].id < next
  }

  ghost predicate CommentsValid(comments: seq<CommentRow>, postIds: set<Id>, next: Id) {
    && (forall i, j :: 0 <= i < j < |comments| ==> comments[i].id != comments[j].id)
    && (forall i :: 0 <= i < |comments| ==> comments[i].id < next && comments[i].postId in postIds)
  }

  ghost predicate RatingsValid(ratings: seq<RatingRow>, postIds: set<Id>, next: Id) {
    && (forall i, j :: 0 <= i < j < |ratings| ==> ratings[i].id != ratings[j].id)
    && (forall i :: 0 <= i < |ratings| ==> ratings[i].id < next && ratings[i].postId in postIds)
    && Schema.AllStarsInRange(ratings)
  }

  ghost predicate CommentRatingsValid(rows: seq<CommentRatingRow>, commentIds: set<Id>, next: Id) {
    && UniqueIds(rows)
    && (forall i :: 0 <= i < |rows| ==> rows[i].id < next && rows[i].commentId in commentIds)
    && OneRatingPerUserAndComment(rows)
    && CommentRatings.AllStarsInRange(rows)
  }

  ghost predicate TaggingValid(tags: seq<string>, links: seq<PostTag>, postIds: set<Id>) {
    TablesValid(tags, links) && forall i :: 0 <= i < |links| ==> links[i].postId in postIds
  }

  ghost predicate ReadMarksValid(marks: seq<ReadMark>, postIds: set<Id>) {
    Distinct(marks) && forall i :: 0 <= i < |marks| ==> marks[i].postId in postIds
  }

  /** Primary keys unique and below their sequence, foreign keys pointing at
      existing rows, stars validated, and the unique indexes on tags.name,
      post_tags, posts_users_read_status and user_comment_ratings
      (user_id, comment_id). */
  ghost predicate Valid(t: Tables) {
    && PostsValid(t.posts, t.nextPostId)
    && CommentsValid(t.comments, PostIds(t.posts), t.nextCommentId)
    && RatingsValid(t.ratings, PostIds(t.posts), t.nextRatingId)
    && CommentRatingsValid(t.commentRatings, CommentIds(t.comments), t.nextCommentRatingId)
    && TaggingValid(t.tags, t.postTags, PostIds(t.posts))
    && ReadMarksValid(t.readMarks, PostIds(t.posts))
  }

  /** The cached columns agree with the detail tables. */
  ghost predicate Accurate(t: Tables) {
    CountsAccurate(t.posts, t.comments) && AveragesAccurate(t.posts, t.ratings)
  }

  /** Position of the row with this primary key (`find(id)`), if any. */
  function FindPost(posts: seq<PostRow>, id: Id): (r: Option<nat>)
    ensures r.Some? ==> r.value < |posts| && posts[r.value].id == id
    ensures r.None? ==> id !in PostIds(posts)
  {
    if |posts| == 0 then None
    else if posts[|posts| - 1].id == id then Some(|posts| - 1)
    else
      var r := FindPost(posts[..|posts| - 1], id);
      assert PostIds(posts) == PostIds(posts[..|posts| - 1]) + {posts[|posts| - 1].id};
      r
  }

  function FindComment(comments: seq<CommentRow>, id: Id): (r: Option<nat>)
    ensures r.Some? ==> r.value < |comments| && comments[r.value].id == id
    ensures r.None? ==> id !in CommentIds(comments)
  {
    if |comments| == 0 then None
    else if comments[|comments| - 1].id == id then Some(|comments| - 1)
    else
      var r := FindComment(comments[..|comments| - 1], id);
      assert CommentIds(comments) == CommentIds(comments[..|comments| - 1]) + {comments[|comments| - 1].id};
      r
  }

  function FindRating(ratings: seq<RatingRow>, id: Id): (r: Option<nat>)
    ensures r.Some? ==> r.value < |ratings| && ratings[r.value].id == id
    ensures r.None? ==> forall i :: 0 <= i < |ratings| ==> ratings[i].id != id
  {
    if |ratings| == 0 then None
    else if ratings[|ratings| - 1].id == id then Some(|ratings| - 1)
    else FindRating(ratings[..|ratings| - 1], id)
  }

  // ---------------------------------------------------------------------
  // The writes

  /** `Comment#save` of a new comment: the validations, the INSERT, and the
      counter cache's `comments_count + 1` on its post. A rejected comment
      changes nothing. */
  function CommentCreated(t: Tables, postId: Id, userId: Option<Id>, body: string): (r: (Tables, Result<Id, seq<ValidationError>>))
    ensures r.1.Success? <==> CommentErrors(postId in PostIds(t.posts), userId, body) == []
    ensures r.1.Failure? ==> r.0 == t && r.1.error != []
  {
    var errs := CommentErrors(postId in PostIds(t.posts), userId, body);
    if errs != [] then (t, Failure(errs))
    else
      var row := CommentRow(t.nextCommentId, postId, userId.value, body);
      (t.(comments := t.comments + [row],
          posts := AdjustCount(t.posts, postId, 1),
          nextCommentId := t.nextCommentId + 1),
       Success(row.id))
  }

  /** `Comment#destroy`: its user comment ratings go first
      (`dependent: :destroy`), then the row, and the counter cache takes one
      off its post. An unknown id changes nothing. */
  function CommentDestroyed(t: Tables, id: Id): (r: (Tables, bool))
    ensures r.1 <==> id in CommentIds(t.comments)
    ensures !r.1 ==> r.0 == t
  {
    match FindComment(t.comments, id)
    case None => (t, false)
    case Some(k) =>
      (t.(commentRatings := WithoutRatingsOf(t.commentRatings, {id}),
          comments := RemoveAt(t.comments, k),
          posts := AdjustCount(t.posts, t.comments[k].postId, -1)),
       true)
  }

  /** `Rating#save` of a new rating, then `update_post_rating_average`. */
  function RatingCreated(t: Tables, postId: Id, stars: Option<int>): (r: (Tables, Result<Id, seq<ValidationError>>))
    ensures r.1.Success? <==> postId in PostIds(t.posts) && stars.Some? && StarsInRange(stars.value)
    ensures r.1.Failure? ==> r.0 == t && r.1.error != []
  {
    var errs := RatingErrors(postId in PostIds(t.posts), stars);
    if errs != [] then (t, Failure(errs))
    else
      var row := RatingRow(t.nextRatingId, postId, stars.value);
      var ratings := t.ratings + [row];
      (t.(ratings := ratings,
          posts := Recompute(t.posts, ratings, postId),
          nextRatingId := t.nextRatingId + 1),
       Success(row.id))
  }

  /** `Rating#update(stars:)` on an existing rating, then the hook. */
  function RatingUpdated(t: Tables, id: Id, stars: Option<int>): (r: (Tables, Result<Id, WriteError>))
    ensures r.1.Success? ==> r.1.value == id && stars.Some? && StarsInRange(stars.value)
    ensures ((exists i :: 0 <= i < |t.ratings| && t.ratings[i].id == id)
             && (forall i :: 0 <= i < |t.ratings| && t.ratings[i].id == id ==> t.ratings[i].postId in PostIds(t.posts))
             && stars.Some? && StarsInRange(stars.value))
            ==> r.1 == Success(id)
    ensures r.1.Success? ==>
      exists i :: 0 <= i < |t.ratings| && t.ratings[i].id == id && t.ratings[i].postId in PostIds(t.posts)
    ensures r.1.Failure? ==> r.0 == t
    ensures r.1 == Failure(NotFound) <==> forall i :: 0 <= i < |t.ratings| ==> t.ratings[i].id != id
  {
    match FindRating(t.ratings, id)
    case None => (t, Failure(NotFound))
    case Some(k) =>
      var errs := RatingErrors(t.ratings[k].postId in PostIds(t.posts), stars);
      if errs != [] then (t, Failure(Invalid(errs)))
      else
        var ratings := t.ratings[k := t.ratings[k].(stars := stars.value)];
        (t.(ratings := ratings, posts := Recompute(t.posts, ratings, t.ratings[k].postId)), Success(id))
  }

  /** `Rating#destroy`, then the hook. */
  function RatingDestroyed(t: Tables, id: Id): (r: (Tables, bool))
    ensures r.1 <==> exists i :: 0 <= i < |t.ratings| && t.ratings[i].id == id
    ensures !r.1 ==> r.0 == t
  {
    match FindRating(t.ratings, id)
    case None => (t, false)
    case Some(k) =>
      var ratings := RemoveAt(t.ratings, k);
      (t.(ratings := ratings, posts := Recompute(t.posts, ratings, t.ratings[k].postId)), true)
  }

  /** `UserCommentRating#save`: the validations, including the uniqueness
      of (user, comment), then the INSERT. */
  function CommentRated(t: Tables, userId: Option<Id>, commentId: Id, stars: Option<int>): (r: (Tables, Result<Id, seq<ValidationError>>))
    ensures r.1.Success? <==>
      CommentRatingErrors(t.commentRatings, commentId in CommentIds(t.comments), userId, commentId, stars) == []
    ensures r.1.Failure? ==> r.0 == t && r.1.error != []
  {
    match Insert(t.commentRatings, t.nextCommentRatingId, commentId in CommentIds(t.comments), userId, commentId, stars)
    case Failure(errs) => (t, Failure(errs))
    case Success(rows) =>
      (t.(commentRatings := rows, nextCommentRatingId := t.nextCommentRatingId + 1), Success(t.nextCommentRatingId))
  }

  /** `Post#destroy`: its comments (and with them their user comment
      ratings), its post_tags, its ratings and its read marks go, then the
      row itself. An unknown id changes nothing. */
  function PostDestroyed(t: Tables, id: Id): (r: (Tables, bool))
    ensures r.1 <==> id in PostIds(t.posts)
    ensures !r.1 ==> r.0 == t
  {
    match FindPost(t.posts, id)
    case None => (t, false)
    case Some(k) =>
      (t.(commentRatings := WithoutRatingsOf(t.commentRatings, CommentIdsOnPost(t.comments, id)),
          comments := CommentsNotOnPost(t.comments, id),
          ratings := RatingsNotOnPost(t.ratings, id),
          postTags := PostTagsNotOnPost(t.postTags, id),
          readMarks := ReadMarksNotOnPost(t.readMarks, id),
          posts := RemoveAt(t.posts, k)),
       true)
  }

  /** The INSERT of a new post that passed validation: `comments_count`
      takes its column default 0 and `rating_average` starts NULL. */
  function PostInserted(t: Tables, topicId: Id, userId: Id, title: string, body: string): (r: (Tables, Id))
    ensures r.1 == t.nextPostId && r.1 in PostIds(r.0.posts)
  {
    var row := PostRow(t.nextPostId, topicId, userId, title, body, Some(0), None);
    assert (t.posts + [row])[|t.posts|] == row;
    (t.(posts := t.posts + [row], nextPostId := t.nextPostId + 1), row.id)
  }

  /** The UPDATE of a persisted post's title and body. */
  function PostUpdated(t: Tables, id: Id, title: string, body: string): (r: (Tables, bool))
    ensures r.1 <==> id in PostIds(t.posts)
    ensures !r.1 ==> r.0 == t
  {
    match FindPost(t.posts, id)
    case None => (t, false)
    case Some(k) => (t.(posts := t.posts[k := t.posts[k].(title := title, body := body)]), true)
  }

  /** The tags and post_tags tables after `sync_pending_tags` of post `postId`. */
  function TagsSynced(t: Tables, postId: Id, pending: seq<string>): Tables {
    var (tags, links) := Sync(t.tags, t.postTags, postId, pending);
    t.(tags := tags, postTags := links)
  }

  // ---------------------------------------------------------------------
  // Helpers: how each write moves the key sets and the per-table invariants

  lemma AdjustCountKeeps(posts: seq<PostRow>, postId: Id, delta: int, next: Id, ratings: seq<RatingRow>)
    ensures PostIds(AdjustCount(posts, postId, delta)) == PostIds(posts)
    ensures PostsValid(posts, next) ==> PostsValid(AdjustCount(posts, postId, delta), next)
    ensures AveragesAccurate(posts, ratings) ==> AveragesAccurate(AdjustCount(posts, postId, delta), ratings)
  {
    var r := AdjustCount(posts, postId, delta);
    AdjustCountFrame(posts, postId, delta);
    assert forall i :: 0 <= i < |posts| ==> r[i].id == posts[i].id && r[i].ratingAverage == posts[i].ratingAverage by {
      forall i | 0 <= i < |posts| ensures r[i].id == posts[i].id && r[i].ratingAverage == posts[i].ratingAverage {
        assert r[i].(commentsCount := posts[i].commentsCount) == posts[i];
      }
    }
  }

  lemma SetAverageKeeps(posts: seq<PostRow>, postId: Id, avg: Option<real>, next: Id, comments: seq<CommentRow>)
    ensures PostIds(SetAverage(posts, postId, avg)) == PostIds(posts)
    ensures PostsValid(posts, next) ==> PostsValid(SetAverage(posts, postId, avg), next)
    ensures CountsAccurate(posts, comments) ==> CountsAccurate(SetAverage(posts, postId, avg), comments)
  {
    var r := SetAverage(posts, postId, avg);
    SetAverageFrame(posts, postId, avg);
    assert forall i :: 0 <= i < |posts| ==> r[i].id == posts[i].id && r[i].commentsCount == posts[i].commentsCount by {
      forall i | 0 <= i < |posts| ensures r[i].id == posts[i].id && r[i].commentsCount == posts[i].commentsCount {
        assert r[i].(ratingAverage := posts[i].ratingAverage) == posts[i];
      }
    }
  }

  lemma CommentRatingsValidWider(rows: seq<CommentRatingRow>, a: set<Id>, b: set<Id>, next: Id)
    requires CommentRatingsValid(rows, a, next) && a <= b
    ensures CommentRatingsValid(rows, b, next)
  {
  }

  lemma CommentIdsSnoc(comments: seq<CommentRow>, c: CommentRow)
    ensures CommentIds(comments + [c]) == CommentIds(comments) + {c.id}
  {
    var s := comments + [c];
    forall x | x in CommentIds(comments) ensures x in CommentIds(s) {
      var j :| 0 <= j < |comments| && comments[j].id == x;
      assert s[j] == comments[j];
    }
    assert s[|comments|] == c;
  }

  lemma CommentIdsRemoveAt(comments: seq<CommentRow>, k: nat)
    requires k < |comments|
    requires forall i, j :: 0 <= i < j < |comments| ==> comments[i].id != comments[j].id
    ensures CommentIds(RemoveAt(comments, k)) == CommentIds(comments) - {comments[k].id}
  {
    var after := RemoveAt(comments, k);
    forall x | x in CommentIds(comments) - {comments[k].id} ensures x in CommentIds(after) {
      var j :| 0 <= j < |comments| && comments[j].id == x;
      if j < k { assert after[j] == comments[j]; } else { assert after[j - 1] == comments[j]; }
    }
    forall x | x in CommentIds(after) ensures x in CommentIds(comments) - {comments[k].id} {
      var j :| 0 <= j < |after| && after[j].id == x;
      if j < k { assert after[j] == comments[j]; } else { assert after[j] == comments[j + 1]; }
    }
  }

  lemma CommentsValidSnoc(comments: seq<CommentRow>, postIds: set<Id>, next: Id, c: CommentRow)
    requires CommentsValid(comments, postIds, next)
    requires c.id == next && c.postId in postIds
    ensures CommentsValid(comments + [c], postIds, next + 1)
  {
    var s := comments + [c];
    assert forall i :: 0 <= i < |comments| ==> s[i] == comments[i];
  }

  lemma CommentsValidRemoveAt(comments: seq<CommentRow>, postIds: set<Id>, next: Id, k: nat)
    requires k < |comments| && CommentsValid(comments, postIds, next)
    ensures CommentsValid(RemoveAt(comments, k), postIds, next)
  {
    var after := RemoveAt(comments, k);
    forall i | 0 <= i < |after| ensures after[i] == comments[if i < k then i else i + 1] {
    }
  }

  lemma CommentRatingsValidWithout(rows: seq<CommentRatingRow>, ids: set<Id>, id: Id, next: Id)
    requires CommentRatingsValid(rows, ids, next)
    ensures CommentRatingsValid(WithoutRatingsOf(rows, {id}), ids - {id}, next)
  {
    var r := WithoutRatingsOf(rows, {id});
    WithoutRatingsKeepsTableValid(rows, {id});
    WithoutRatingsKeepsIdsUnique(rows, {id});
    WithoutRatingsOfMembers(rows, {id});
    forall i | 0 <= i < |r| ensures r[i].id < next && r[i].commentId in ids - {id} {
      assert r[i] in rows;
    }
  }

  lemma RatingsValidSnoc(ratings: seq<RatingRow>, postIds: set<Id>, next: Id, x: RatingRow)
    requires RatingsValid(ratings, postIds, next)
    requires x.id == next && x.postId in postIds && StarsInRange(x.stars)
    ensures RatingsValid(ratings + [x], postIds, next + 1)
  {
    var s := ratings + [x];
    assert forall i :: 0 <= i < |ratings| ==> s[i] == ratings[i];
  }

  lemma RatingsValidUpdate(ratings: seq<RatingRow>, postIds: set<Id>, next: Id, k: nat, stars: int)
    requires k < |ratings| && RatingsValid(ratings, postIds, next) && StarsInRange(stars)
    ensures RatingsValid(ratings[k := ratings[k].(stars := stars)], postIds, next)
  {
  }

  lemma RatingsValidRemoveAt(ratings: seq<RatingRow>, postIds: set<Id>, next: Id, k: nat)
    requires k < |ratings| && RatingsValid(ratings, postIds, next)
    ensures RatingsValid(RemoveAt(ratings, k), postIds, next)
  {
    var after := RemoveAt(ratings, k);
    forall i | 0 <= i < |after| ensures after[i] == ratings[if i < k then i else i + 1] {
    }
  }

  lemma PostIdsSnoc(posts: seq<PostRow>, p: PostRow)
    ensures PostIds(posts + [p]) == PostIds(posts) + {p.id}
  {
    var s := posts + [p];
    forall x | x in PostIds(posts) ensures x in PostIds(s) {
      var j :| 0 <= j < |posts| && posts[j].id == x;
      assert s[j] == posts[j];
    }
    assert s[|posts|] == p;
  }

  lemma PostIdsRemoveAt(posts: seq<PostRow>, k: nat)
    requires k < |posts| && UniquePostIds(posts)
    ensures PostIds(RemoveAt(posts, k)) == PostIds(posts) - {posts[k].id}
  {
    var after := RemoveAt(posts, k);
    forall x | x in PostIds(posts) - {posts[k].id} ensures x in PostIds(after) {
      var j :| 0 <= j < |posts| && posts[j].id == x;
      if j < k { assert after[j] == posts[j]; } else { assert after[j - 1] == posts[j]; }
    }
    forall x | x in PostIds(after) ensures x in PostIds(posts) - {posts[k].id} {
      var j :| 0 <= j < |after| && after[j].id == x;
      if j < k { assert after[j] == posts[j]; } else { assert after[j] == posts[j + 1]; }
    }
  }

  /** Adding a post key keeps every foreign key to posts valid. */
  lemma PostForeignKeysWider(t: Tables, a: set<Id>, b: set<Id>)
    requires a <= b
    requires CommentsValid(t.comments, a, t.nextCommentId) && RatingsValid(t.ratings, a, t.nextRatingId)
    requires TaggingValid(t.tags, t.postTags, a) && ReadMarksValid(t.readMarks, a)
    ensures CommentsValid(t.comments, b, t.nextCommentId) && RatingsValid(t.ratings, b, t.nextRatingId)
    ensures TaggingValid(t.tags, t.postTags, b) && ReadMarksValid(t.readMarks, b)
  {
  }

  lemma {:induction false} CommentsNotOnPostUniqueIds(comments: seq<CommentRow>, postId: Id)
    requires forall i, j :: 0 <= i < j < |comments| ==> comments[i].id != comments[j].id
    ensures forall i, j :: 0 <= i < j < |CommentsNotOnPost(comments, postId)| ==>
      CommentsNotOnPost(comments, postId)[i].id != CommentsNotOnPost(comments, postId)[j].id
    decreases |comments|
  {
    if |comments| > 0 {
      var front := comments[..|comments| - 1];
      var last := comments[|comments| - 1];
      CommentsNotOnPostUniqueIds(front, postId);
      var init := CommentsNotOnPost(front, postId);
      CommentsNotOnPostMembers(front, postId);
      if last.postId != postId {
        var r := CommentsNotOnPost(comments, postId);
        assert r == init + [last];
        forall i, j | 0 <= i < j < |r| ensures r[i].id != r[j].id {
          assert r[i] == init[i];
          if j == |init| {
            assert init[i] in front;
            var m :| 0 <= m < |front| && front[m] == init[i];
            assert comments[m] == front[m];
          } else {
            assert r[j] == init[j];
          }
        }
      } else {
        assert CommentsNotOnPost(comments, postId) == init;
      }
    }
  }

  lemma CommentsNotOnPostValid(comments: seq<CommentRow>, postIds: set<Id>, next: Id, postId: Id)
    requires CommentsValid(comments, postIds, next)
    ensures CommentsValid(CommentsNotOnPost(comments, postId), postIds - {postId}, next)
  {
    var r := CommentsNotOnPost(comments, postId);
    CommentsNotOnPostUniqueIds(comments, postId);
    CommentsNotOnPostMembers(comments, postId);
    forall i | 0 <= i < |r| ensures r[i].id < next && r[i].postId in postIds - {postId} {
      assert r[i] in comments;
    }
  }

  lemma {:induction false} RatingsNotOnPostUniqueIds(ratings: seq<RatingRow>, postId: Id)
    requires forall i, j :: 0 <= i < j < |ratings| ==> ratings[i].id != ratings[j].id
    ensures forall i, j :: 0 <= i < j < |RatingsNotOnPost(ratings, postId)| ==>
      RatingsNotOnPost(ratings, postId)[i].id != RatingsNotOnPost(ratings, postId)[j].id
    decreases |ratings|
  {
    if |ratings| > 0 {
      var front := ratings[..|ratings| - 1];
      var last := ratings[|ratings| - 1];
      RatingsNotOnPostUniqueIds(front, postId);
      var init := RatingsNotOnPost(front, postId);
      RatingsNotOnPostMembers(front, postId);
      if last.postId != postId {
        var r := RatingsNotOnPost(ratings, postId);
        assert r == init + [last];
        forall i, j | 0 <= i < j < |r| ensures r[i].id != r[j].id {
          assert r[i] == init[i];
          if j == |init| {
            assert init[i] in front;
            var m :| 0 <= m < |front| && front[m] == init[i];
            assert ratings[m] == front[m];
          } else {
            assert r[j] == init[j];
          }
        }
      } else {
        assert RatingsNotOnPost(ratings, postId) == init;
      }
    }
  }

  lemma RatingsNotOnPostValid(ratings: seq<RatingRow>, postIds: set<Id>, next: Id, postId: Id)
    requires RatingsValid(ratings, postIds, next)
    ensures RatingsValid(RatingsNotOnPost(ratings, postId), postIds - {postId}, next)
  {
    var r := RatingsNotOnPost(ratings, postId);
    RatingsNotOnPostUniqueIds(ratings, postId);
    RatingsNotOnPostMembers(ratings, postId);
    forall i | 0 <= i < |r|
      ensures r[i].id < next && r[i].postId in postIds - {postId} && StarsInRange(r[i].stars)
    {
      assert r[i] in ratings;
    }
  }

  lemma {:induction false} PostTagsNotOnPostDistinct(links: seq<PostTag>, postId: Id)
    requires Distinct(links)
    ensures Distinct(PostTagsNotOnPost(links, postId))
    decreases |links|
  {
    if |links| > 0 {
      var front := links[..|links| - 1];
      var last := links[|links| - 1];
      PostTagsNotOnPostDistinct(front, postId);
      var init := PostTagsNotOnPost(front, postId);
      PostTagsNotOnPostMembers(front, postId);
      if last.postId != postId {
        assert PostTagsNotOnPost(links, postId) == init + [last];
        forall i | 0 <= i < |init| ensures init[i] != last {
          assert init[i] in front;
          var j :| 0 <= j < |front| && front[j] == init[i];
          assert links[j] == front[j];
        }
      }
    }
  }

  lemma {:induction false} ReadMarksNotOnPostDistinct(marks: seq<ReadMark>, postId: Id)
    requires Distinct(marks)
    ensures Distinct(ReadMarksNotOnPost(marks, postId))
    decreases |marks|
  {
    if |marks| > 0 {
      var front := marks[..|marks| - 1];
      var last := marks[|marks| - 1];
      ReadMarksNotOnPostDistinct(front, postId);
      var init := ReadMarksNotOnPost(front, postId);
      ReadMarksNotOnPostMembers(front, postId);
      if last.postId != postId {
        assert ReadMarksNotOnPost(marks, postId) == init + [last];
        forall i | 0 <= i < |init| ensures init[i] != last {
          assert init[i] in front;
          var j :| 0 <= j < |front| && front[j] == init[i];
          assert marks[j] == front[j];
        }
      }
    }
  }

  /** The ratings of the destroyed post's comments go with them, so every
      surviving rating still points at a surviving comment. */
  lemma CommentRatingsAfterPostDestroyed(rows: seq<CommentRatingRow>, comments: seq<CommentRow>, next: Id, postId: Id)
    requires CommentRatingsValid(rows, CommentIds(comments), next)
    ensures CommentRatingsValid(WithoutRatingsOf(rows, CommentIdsOnPost(comments, postId)),
                                CommentIds(CommentsNotOnPost(comments, postId)), next)
  {
    var gone := CommentIdsOnPost(comments, postId);
    var r := WithoutRatingsOf(rows, gone);
    var kept := CommentsNotOnPost(comments, postId);
    WithoutRatingsKeepsTableValid(rows, gone);
    WithoutRatingsKeepsIdsUnique(rows, gone);
    WithoutRatingsOfMembers(rows, gone);
    CommentsNotOnPostMembers(comments, postId);
    forall i | 0 <= i < |r| ensures r[i].id < next && r[i].commentId in CommentIds(kept) {
      assert r[i] in rows;
      var j :| 0 <= j < |comments| && comments[j].id == r[i].commentId;
      assert comments[j] in comments;
      assert comments[j].postId != postId;
      assert comments[j] in kept;
      var m :| 0 <= m < |kept| && kept[m] == comments[j];
    }
  }

  // ---------------------------------------------------------------------
  // Every write keeps the tables valid and the caches exact

  lemma CommentCreatedKeepsValid(t: Tables, postId: Id, userId: Option<Id>, body: string)
    requires Valid(t)
    ensures Valid(CommentCreated(t, postId, userId, body).0)
  {
    if CommentCreated(t, postId, userId, body).1.Success? {
      var row := CommentRow(t.nextCommentId, postId, userId.value, body);
      AdjustCountKeeps(t.posts, postId, 1, t.nextPostId, t.ratings);
      CommentIdsSnoc(t.comments, row);
      CommentsValidSnoc(t.comments, PostIds(t.posts), t.nextCommentId, row);
      CommentRatingsValidWider(t.commentRatings, CommentIds(t.comments), CommentIds(t.comments + [row]), t.nextCommentRatingId);
    }
  }

  lemma CommentCreatedKeepsAccurate(t: Tables, postId: Id, userId: Option<Id>, body: string)
    requires Accurate(t)
    ensures Accurate(CommentCreated(t, postId, userId, body).0)
  {
    if CommentCreated(t, postId, userId, body).1.Success? {
      var row := CommentRow(t.nextCommentId, postId, userId.value, body);
      AdjustCountKeeps(t.posts, postId, 1, t.nextPostId, t.ratings);
      CreateKeepsCountsAccurate(t.posts, t.comments, row);
    }
  }

  /** A created comment adds one to its post's live count and to no other. */
  lemma CommentCreatedCountsOnce(t: Tables, postId: Id, userId: Option<Id>, body: string, q: Id)
    requires CommentCreated(t, postId, userId, body).1.Success?
    ensures CountComments(CommentCreated(t, postId, userId, body).0.comments, q)
      == CountComments(t.comments, q) + (if q == postId then 1 else 0)
  {
    var row := CommentRow(t.nextCommentId, postId, userId.value, body);
    assert (t.comments + [row])[..|t.comments|] == t.comments;
  }

  lemma CommentDestroyedKeepsValid(t: Tables, id: Id)
    requires Valid(t)
    ensures Valid(CommentDestroyed(t, id).0)
  {
    var k := FindComment(t.comments, id);
    if k.Some? {
      var i := k.value;
      CommentIdsRemoveAt(t.comments, i);
      AdjustCountKeeps(t.posts, t.comments[i].postId, -1, t.nextPostId, t.ratings);
      CommentsValidRemoveAt(t.comments, PostIds(t.posts), t.nextCommentId, i);
      CommentRatingsValidWithout(t.commentRatings, CommentIds(t.comments), id, t.nextCommentRatingId);
    }
  }

  lemma CommentDestroyedKeepsAccurate(t: Tables, id: Id)
    requires Accurate(t)
    ensures Accurate(CommentDestroyed(t, id).0)
  {
    var k := FindComment(t.comments, id);
    if k.Some? {
      AdjustCountKeeps(t.posts, t.comments[k.value].postId, -1, t.nextPostId, t.ratings);
      DestroyKeepsCountsAccurate(t.posts, t.comments, k.value);
    }
  }

  /** After the destroy neither the comment nor any rating of it is left. */
  lemma CommentDestroyedLeavesNoTrace(t: Tables, id: Id)
    requires Valid(t)
    ensures id !in CommentIds(CommentDestroyed(t, id).0.comments)
    ensures forall x :: x in CommentDestroyed(t, id).0.commentRatings ==> x.commentId != id
  {
    var k := FindComment(t.comments, id);
    if k.Some? {
      CommentIdsRemoveAt(t.comments, k.value);
      WithoutRatingsOfMembers(t.commentRatings, {id});
    } else {
      forall x | x in t.commentRatings ensures x.commentId != id {
        var i :| 0 <= i < |t.commentRatings| && t.commentRatings[i] == x;
      }
    }
  }

  lemma RatingCreatedKeepsValid(t: Tables, postId: Id, stars: Option<int>)
    requires Valid(t)
    ensures Valid(RatingCreated(t, postId, stars).0)
  {
    if RatingCreated(t, postId, stars).1.Success? {
      var row := RatingRow(t.nextRatingId, postId, stars.value);
      SetAverageKeeps(t.posts, postId, Average(t.ratings + [row], postId), t.nextPostId, t.comments);
      RatingsValidSnoc(t.ratings, PostIds(t.posts), t.nextRatingId, row);
    }
  }

  lemma RatingCreatedKeepsAccurate(t: Tables, postId: Id, stars: Option<int>)
    requires Accurate(t)
    ensures Accurate(RatingCreated(t, postId, stars).0)
  {
    if RatingCreated(t, postId, stars).1.Success? {
      var row := RatingRow(t.nextRatingId, postId, stars.value);
      SetAverageKeeps(t.posts, postId, Average(t.ratings + [row], postId), t.nextPostId, t.comments);
      CreateKeepsAveragesAccurate(t.posts, t.ratings, row);
    }
  }

  /** The hook's own promise, whatever the cache held before: after a
      rating is saved, its post's `rating_average` is the mean of its
      ratings, the new one included. */
  lemma RatingCreatedSetsAverage(t: Tables, postId: Id, stars: Option<int>, i: nat)
    requires RatingCreated(t, postId, stars).1.Success?
    requires i < |t.posts| && t.posts[i].id == postId
    ensures var t' := RatingCreated(t, postId, stars).0;
      t'.posts[i].ratingAverage == Average(t'.ratings, postId) && t'.posts[i].ratingAverage.Some?
  {
    var row := RatingRow(t.nextRatingId, postId, stars.value);
    SetAverageFrame(t.posts, postId, Average(t.ratings + [row], postId));
    RatingAggregatesConcat(t.ratings, [row], postId);
    assert [row][..0] == [];
  }

  /** A successful update rewrites the stars of the rating with that
      primary key and of no other row, and leaves every other table as it
      was apart from the posts' cached averages. */
  lemma RatingUpdatedStoresStars(t: Tables, id: Id, stars: Option<int>, k: nat)
    requires forall i, j :: 0 <= i < j < |t.ratings| ==> t.ratings[i].id != t.ratings[j].id
    requires k < |t.ratings| && t.ratings[k].id == id
    requires RatingUpdated(t, id, stars).1.Success?
    ensures var t' := RatingUpdated(t, id, stars).0;
      && t'.ratings == t.ratings[k := t.ratings[k].(stars := stars.value)]
      && t'.(posts := t.posts, ratings := t.ratings) == t
  {
    assert FindRating(t.ratings, id) == Some(k);
  }

  /** The hook's promise on update, whatever the cache held before: the
      rated post's `rating_average` becomes the mean of its ratings, the
      new stars included. */
  lemma RatingUpdatedSetsAverage(t: Tables, id: Id, stars: Option<int>, k: nat, i: nat)
    requires forall i, j :: 0 <= i < j < |t.ratings| ==> t.ratings[i].id != t.ratings[j].id
    requires k < |t.ratings| && t.ratings[k].id == id
    requires RatingUpdated(t, id, stars).1.Success?
    requires i < |t.posts| && t.posts[i].id == t.ratings[k].postId
    ensures var t' := RatingUpdated(t, id, stars).0;
      t'.posts[i].ratingAverage == Average(t'.ratings, t.ratings[k].postId) && t'.posts[i].ratingAverage.Some?
  {
    assert FindRating(t.ratings, id) == Some(k);
    var p := t.ratings[k].postId;
    var ratings := t.ratings[k := t.ratings[k].(stars := stars.value)];
    SetAverageFrame(t.posts, p, Average(ratings, p));
    RatingAggregatesRemoveAt(ratings, k, p);
  }

  lemma RatingUpdatedKeepsValid(t: Tables, id: Id, stars: Option<int>)
    requires Valid(t)
    ensures Valid(RatingUpdated(t, id, stars).0)
  {
    if RatingUpdated(t, id, stars).1.Success? {
      var k := FindRating(t.ratings, id).value;
      var ratings := t.ratings[k := t.ratings[k].(stars := stars.value)];
      SetAverageKeeps(t.posts, t.ratings[k].postId, Average(ratings, t.ratings[k].postId), t.nextPostId, t.comments);
      RatingsValidUpdate(t.ratings, PostIds(t.posts), t.nextRatingId, k, stars.value);
    }
  }

  lemma RatingUpdatedKeepsAccurate(t: Tables, id: Id, stars: Option<int>)
    requires Accurate(t)
    ensures Accurate(RatingUpdated(t, id, stars).0)
  {
    if RatingUpdated(t, id, stars).1.Success? {
      var k := FindRating(t.ratings, id).value;
      var ratings := t.ratings[k := t.ratings[k].(stars := stars.value)];
      SetAverageKeeps(t.posts, t.ratings[k].postId, Average(ratings, t.ratings[k].postId), t.nextPostId, t.comments);
      UpdateKeepsAveragesAccurate(t.posts, t.ratings, k, stars.value);
    }
  }

  lemma RatingDestroyedKeepsValid(t: Tables, id: Id)
    requires Valid(t)
    ensures Valid(RatingDestroyed(t, id).0)
  {
    var k := FindRating(t.ratings, id);
    if k.Some? {
      var ratings := RemoveAt(t.ratings, k.value);
      var p := t.ratings[k.value].postId;
      SetAverageKeeps(t.posts, p, Average(ratings, p), t.nextPostId, t.comments);
      RatingsValidRemoveAt(t.ratings, PostIds(t.posts), t.nextRatingId, k.value);
    }
  }

  lemma RatingDestroyedKeepsAccurate(t: Tables, id: Id)
    requires Accurate(t)
    ensures Accurate(RatingDestroyed(t, id).0)
  {
    var k := FindRating(t.ratings, id);
    if k.Some? {
      var ratings := RemoveAt(t.ratings, k.value);
      var p := t.ratings[k.value].postId;
      SetAverageKeeps(t.posts, p, Average(ratings, p), t.nextPostId, t.comments);
      DestroyKeepsAveragesAccurate(t.posts, t.ratings, k.value);
    }
  }

  /** Destroying a post's only rating writes NULL, not 0, into its cache. */
  lemma LastRatingDestroyedLeavesNull(t: Tables, k: nat, i: nat)
    requires k < |t.ratings| && i < |t.posts| && t.posts[i].id == t.ratings[k].postId
    requires RatingCount(t.ratings, t.ratings[k].postId) == 1
    requires forall j :: 0 <= j < |t.ratings| && t.ratings[j].id == t.ratings[k].id ==> j == k
    ensures RatingDestroyed(t, t.ratings[k].id).0.posts[i].ratingAverage == None
  {
    var id := t.ratings[k].id;
    var j := FindRating(t.ratings, id).value;
    assert j == k;
    var p := t.ratings[k].postId;
    LastRatingGoneMeansNull(t.ratings, k);
    SetAverageFrame(t.posts, p, Average(RemoveAt(t.ratings, k), p));
  }

  lemma CommentRatedKeepsValid(t: Tables, userId: Option<Id>, commentId: Id, stars: Option<int>)
    requires Valid(t)
    ensures Valid(CommentRated(t, userId, commentId, stars).0)
  {
    var rows := t.commentRatings;
    var exists_ := commentId in CommentIds(t.comments);
    var r := Insert(rows, t.nextCommentRatingId, exists_, userId, commentId, stars);
    if r.Success? {
      InsertKeepsTableValid(rows, t.nextCommentRatingId, exists_, userId, commentId, stars);
      assert forall i :: 0 <= i < |rows| ==> r.value[i] == rows[i];
    }
  }

  lemma PostDestroyedKeepsValid(t: Tables, id: Id)
    requires Valid(t)
    ensures Valid(PostDestroyed(t, id).0)
  {
    var k := FindPost(t.posts, id);
    if k.Some? {
      var ids := PostIds(t.posts);
      var posts := RemoveAt(t.posts, k.value);
      PostIdsRemoveAt(t.posts, k.value);
      assert PostsValid(posts, t.nextPostId) by {
        forall i | 0 <= i < |posts| ensures posts[i] == t.posts[if i < k.value then i else i + 1] {
        }
      }
      CommentsNotOnPostValid(t.comments, ids, t.nextCommentId, id);
      RatingsNotOnPostValid(t.ratings, ids, t.nextRatingId, id);
      CommentRatingsAfterPostDestroyed(t.commentRatings, t.comments, t.nextCommentRatingId, id);
      PostTagsNotOnPostDistinct(t.postTags, id);
      ReadMarksNotOnPostDistinct(t.readMarks, id);
      var links := PostTagsNotOnPost(t.postTags, id);
      PostTagsNotOnPostMembers(t.postTags, id);
      forall i | 0 <= i < |links| ensures links[i].tagId < |t.tags| && links[i].postId in ids - {id} {
        assert links[i] in t.postTags;
      }
      var marks := ReadMarksNotOnPost(t.readMarks, id);
      ReadMarksNotOnPostMembers(t.readMarks, id);
      forall i | 0 <= i < |marks| ensures marks[i].postId in ids - {id} {
        assert marks[i] in t.readMarks;
      }
    }
  }

  lemma PostDestroyedKeepsAccurate(t: Tables, id: Id)
    requires Valid(t) && Accurate(t)
    ensures Accurate(PostDestroyed(t, id).0)
  {
    var k := FindPost(t.posts, id);
    if k.Some? {
      DestroyPostKeepsAggregatesAccurate(t.posts, t.comments, t.ratings, k.value);
    }
  }

  /** Nothing that pointed at the destroyed post is left behind. */
  lemma PostDestroyedLeavesNoTrace(t: Tables, id: Id)
    requires Valid(t)
    ensures var t' := PostDestroyed(t, id).0;
      && id !in PostIds(t'.posts)
      && (forall c :: c in t'.comments ==> c.postId != id)
      && (forall x :: x in t'.ratings ==> x.postId != id)
      && (forall l :: l in t'.postTags ==> l.postId != id)
      && (forall m :: m in t'.readMarks ==> m.postId != id)
      && (forall r :: r in t'.commentRatings ==> r.commentId !in CommentIdsOnPost(t.comments, id))
  {
    var k := FindPost(t.posts, id);
    if k.Some? {
      PostIdsRemoveAt(t.posts, k.value);
      CommentsNotOnPostMembers(t.comments, id);
      RatingsNotOnPostMembers(t.ratings, id);
      PostTagsNotOnPostMembers(t.postTags, id);
      ReadMarksNotOnPostMembers(t.readMarks, id);
      WithoutRatingsOfMembers(t.commentRatings, CommentIdsOnPost(t.comments, id));
    } else {
      forall c | c in t.comments ensures c.postId != id {
        var i :| 0 <= i < |t.comments| && t.comments[i] == c;
      }
      forall x | x in t.ratings ensures x.postId != id {
        var i :| 0 <= i < |t.ratings| && t.ratings[i] == x;
      }
      forall l | l in t.postTags ensures l.postId != id {
        var i :| 0 <= i < |t.postTags| && t.postTags[i] == l;
      }
      forall m | m in t.readMarks ensures m.postId != id {
        var i :| 0 <= i < |t.readMarks| && t.readMarks[i] == m;
      }
    }
  }

  lemma PostInsertedKeepsValid(t: Tables, topicId: Id, userId: Id, title: string, body: string)
    requires Valid(t)
    ensures Valid(PostInserted(t, topicId, userId, title, body).0)
  {
    var row := PostRow(t.nextPostId, topicId, userId, title, body, Some(0), None);
    var posts := t.posts + [row];
    PostIdsSnoc(t.posts, row);
    assert PostsValid(posts, t.nextPostId + 1) by {
      assert forall i :: 0 <= i < |t.posts| ==> posts[i] == t.posts[i];
    }
    PostForeignKeysWider(t, PostIds(t.posts), PostIds(posts));
  }

  /** A new post has no comments and no ratings, so its column defaults,
      count 0 and average NULL, are already exact. */
  lemma PostInsertedKeepsAccurate(t: Tables, topicId: Id, userId: Id, title: string, body: string)
    requires Valid(t) && Accurate(t)
    ensures Accurate(PostInserted(t, topicId, userId, title, body).0)
  {
    var row := PostRow(t.nextPostId, topicId, userId, title, body, Some(0), None);
    var posts := t.posts + [row];
    FreshPostHasNoRows(t.posts, t.comments, t.ratings, t.nextPostId, t.nextCommentId, t.nextRatingId);
    assert forall i :: 0 <= i < |t.posts| ==> posts[i] == t.posts[i];
    assert posts[|t.posts|] == row;
  }

  /** No comment and no rating points at the next post id yet. */
  lemma FreshPostHasNoRows(posts: seq<PostRow>, comments: seq<CommentRow>, ratings: seq<RatingRow>,
                           next: Id, nextComment: Id, nextRating: Id)
    requires PostsValid(posts, next)
    requires CommentsValid(comments, PostIds(posts), nextComment)
    requires RatingsValid(ratings, PostIds(posts), nextRating)
    ensures CountComments(comments, next) == 0 && Average(ratings, next) == None
  {
    assert CountComments(comments, next) == 0 by {
      forall i | 0 <= i < |comments| ensures comments[i].postId != next {
        var j :| 0 <= j < |posts| && posts[j].id == comments[i].postId;
      }
    }
    forall i | 0 <= i < |ratings| ensures ratings[i].postId != next {
      var j :| 0 <= j < |posts| && posts[j].id == ratings[i].postId;
    }
    RatingCountAbsent(ratings, next);
  }

  lemma PostUpdatedKeepsValid(t: Tables, id: Id, title: string, body: string)
    requires Valid(t)
    ensures Valid(PostUpdated(t, id, title, body).0) && (Accurate(t) ==> Accurate(PostUpdated(t, id, title, body).0))
    ensures PostIds(PostUpdated(t, id, title, body).0.posts) == PostIds(t.posts)
  {
    var k := FindPost(t.posts, id);
    if k.Some? {
      var posts := t.posts[k.value := t.posts[k.value].(title := title, body := body)];
      assert PostIds(posts) == PostIds(t.posts) by {
        forall x | x in PostIds(t.posts) ensures x in PostIds(posts) {
          var j :| 0 <= j < |t.posts| && t.posts[j].id == x;
          assert posts[j].id == x;
        }
      }
    }
  }

  /** The tag hook, run for an existing post on canonical names, keeps the
      tables valid and touches neither the caches nor any other table. */
  lemma TagsSyncedKeepsValid(t: Tables, postId: Id, pending: seq<string>)
    requires Valid(t) && postId in PostIds(t.posts)
    requires forall k :: 0 <= k < |pending| ==> IsCanonical(pending[k])
    ensures Valid(TagsSynced(t, postId, pending))
    ensures Accurate(TagsSynced(t, postId, pending)) <==> Accurate(t)
  {
    SyncKeepsTablesValid(t.tags, t.postTags, postId, pending);
    var l := TagsSynced(t, postId, pending).postTags;
    forall i | 0 <= i < |l| ensures l[i].postId in PostIds(t.posts) {
      if i >= |t.postTags| && pending != [] {
        var (tg, ids) := ResolveAll(t.tags, Dedup(pending));
        assert l == AddLinks(t.postTags, postId, TagIdsOf(t.postTags, postId), ids);
      }
    }
  }

  // ---------------------------------------------------------------------
  // The rows each write stores

  /** A saved comment is the row built from the given post, user and body
      under the next id; besides it only the posts' cached counts change. */
  lemma CommentCreatedStoresRow(t: Tables, postId: Id, userId: Option<Id>, body: string)
    requires CommentCreated(t, postId, userId, body).1.Success?
    ensures var (t', r) := CommentCreated(t, postId, userId, body);
      && r.value == t.nextCommentId
      && t'.comments == t.comments + [CommentRow(t.nextCommentId, postId, userId.value, body)]
      && t'.nextCommentId == t.nextCommentId + 1
      && |t'.posts| == |t.posts|
      && (forall i :: 0 <= i < |t.posts| ==> t'.posts[i].(commentsCount := t.posts[i].commentsCount) == t.posts[i])
      && t'.(posts := t.posts, comments := t.comments, nextCommentId := t.nextCommentId) == t
  {
    AdjustCountFrame(t.posts, postId, 1);
  }

  /** A saved rating is the row built from the given post and stars under
      the next id; besides it only the posts' cached averages change. */
  lemma RatingCreatedStoresRow(t: Tables, postId: Id, stars: Option<int>)
    requires RatingCreated(t, postId, stars).1.Success?
    ensures var (t', r) := RatingCreated(t, postId, stars);
      && r.value == t.nextRatingId
      && t'.ratings == t.ratings + [RatingRow(t.nextRatingId, postId, stars.value)]
      && t'.nextRatingId == t.nextRatingId + 1
      && |t'.posts| == |t.posts|
      && (forall i :: 0 <= i < |t.posts| ==> t'.posts[i].(ratingAverage := t.posts[i].ratingAverage) == t.posts[i])
      && t'.(posts := t.posts, ratings := t.ratings, nextRatingId := t.nextRatingId) == t
  {
    var row := RatingRow(t.nextRatingId, postId, stars.value);
    SetAverageFrame(t.posts, postId, Average(t.ratings + [row], postId));
  }

  /** The average after a rating is created, from the ratings before: the
      new stars join the sum and the count. */
  lemma RatingCreatedAverageFromOld(t: Tables, postId: Id, stars: Option<int>, i: nat)
    requires RatingCreated(t, postId, stars).1.Success?
    requires i < |t.posts| && t.posts[i].id == postId
    ensures RatingCreated(t, postId, stars).0.posts[i].ratingAverage ==
      Some((StarsSum(t.ratings, postId) + stars.value) as real / (RatingCount(t.ratings, postId) + 1) as real)
  {
    var row := RatingRow(t.nextRatingId, postId, stars.value);
    SetAverageFrame(t.posts, postId, Average(t.ratings + [row], postId));
    RatingAggregatesConcat(t.ratings, [row], postId);
    assert [row][..0] == [];
  }

  /** A destroy removes the row with that primary key and no other; besides
      it only the posts' cached averages change. */
  lemma RatingDestroyedRemovesRow(t: Tables, id: Id, k: nat)
    requires forall i, j :: 0 <= i < j < |t.ratings| ==> t.ratings[i].id != t.ratings[j].id
    requires k < |t.ratings| && t.ratings[k].id == id
    ensures var (t', ok) := RatingDestroyed(t, id);
      && ok
      && t'.ratings == RemoveAt(t.ratings, k)
      && |t'.posts| == |t.posts|
      && (forall i :: 0 <= i < |t.posts| ==> t'.posts[i].(ratingAverage := t.posts[i].ratingAverage) == t.posts[i])
      && t'.(posts := t.posts, ratings := t.ratings) == t
  {
    assert FindRating(t.ratings, id) == Some(k);
    var p := t.ratings[k].postId;
    SetAverageFrame(t.posts, p, Average(RemoveAt(t.ratings, k), p));
  }

  /** The average after a rating is destroyed, from the ratings before: its
      stars leave the sum and the count, and no rating left means NULL. */
  lemma RatingDestroyedAverageFromOld(t: Tables, id: Id, k: nat, i: nat)
    requires forall i, j :: 0 <= i < j < |t.ratings| ==> t.ratings[i].id != t.ratings[j].id
    requires k < |t.ratings| && t.ratings[k].id == id
    requires i < |t.posts| && t.posts[i].id == t.ratings[k].postId
    ensures var p := t.ratings[k].postId;
      var n := RatingCount(t.ratings, p) - 1;
      RatingDestroyed(t, id).0.posts[i].ratingAverage ==
        (if n == 0 then None else Some((StarsSum(t.ratings, p) - t.ratings[k].stars) as real / n as real))
  {
    assert FindRating(t.ratings, id) == Some(k);
    var p := t.ratings[k].postId;
    SetAverageFrame(t.posts, p, Average(RemoveAt(t.ratings, k), p));
    RatingAggregatesRemoveAt(t.ratings, k, p);
  }

  /** An inserted post is the row built from the given topic, user, title
      and body under the next id, with count 0 and no average; no other
      table changes. */
  lemma PostInsertedStoresRow(t: Tables, topicId: Id, userId: Id, title: string, body: string)
    ensures var (t', id) := PostInserted(t, topicId, userId, title, body);
      && id == t.nextPostId
      && t'.posts == t.posts + [PostRow(t.nextPostId, topicId, userId, title, body, Some(0), None)]
      && t'.nextPostId == t.nextPostId + 1
      && t'.(posts := t.posts, nextPostId := t.nextPostId) == t
  {
  }

  /** Updating an existing post writes the new title and body into its row
      only; every other column, row and table stays as it was. */
  lemma PostUpdatedStoresTitleAndBody(t: Tables, id: Id, title: string, body: string, k: nat)
    requires UniquePostIds(t.posts)
    requires k < |t.posts| && t.posts[k].id == id
    ensures var (t', ok) := PostUpdated(t, id, title, body);
      && ok
      && t'.posts == t.posts[k := t.posts[k].(title := title, body := body)]
      && t'.(posts := t.posts) == t
  {
    assert FindPost(t.posts, id) == Some(k);
  }

  /** The counter cache on create, on any tables: the comment's post
      count becomes its old value plus one, a NULL count read as 0. */
  lemma CommentCreatedCountFromOld(t: Tables, postId: Id, userId: Option<Id>, body: string, i: nat)
    requires CommentCreated(t, postId, userId, body).1.Success?
    requires i < |t.posts| && t.posts[i].id == postId
    ensures CommentCreated(t, postId, userId, body).0.posts[i].commentsCount ==
      Some(t.posts[i].commentsCount.GetOr(0) + 1)
  {
    AdjustCountStep(t.posts, postId, 1, i);
  }

  /** The counter cache on destroy, on any tables: the comment's post
      count becomes its old value minus one, a NULL count read as 0. */
  lemma CommentDestroyedCountFromOld(t: Tables, id: Id, k: nat, i: nat)
    requires forall a, b :: 0 <= a < b < |t.comments| ==> t.comments[a].id != t.comments[b].id
    requires k < |t.comments| && t.comments[k].id == id
    requires i < |t.posts| && t.posts[i].id == t.comments[k].postId
    ensures CommentDestroyed(t, id).0.posts[i].commentsCount ==
      Some(t.posts[i].commentsCount.GetOr(0) - 1)
  {
    assert FindComment(t.comments, id) == Some(k);
    AdjustCountStep(t.posts, t.comments[k].postId, -1, i);
  }

  /** With the primary key unique, updating a rating whose post is gone
      fails the `belongs_to :post` validation and changes nothing. */
  lemma RatingUpdatedNeedsPost(t: Tables, id: Id, stars: Option<int>, k: nat)
    requires forall i, j :: 0 <= i < j < |t.ratings| ==> t.ratings[i].id != t.ratings[j].id
    requires k < |t.ratings| && t.ratings[k].id == id
    requires t.ratings[k].postId !in PostIds(t.posts)
    ensures RatingUpdated(t, id, stars).1.Failure?
    ensures RatingUpdated(t, id, stars).1 != Failure(NotFound)
    ensures RatingUpdated(t, id, stars).0 == t
  {
    assert FindRating(t.ratings, id) == Some(k);
  }
}
