/** The UserCommentRating model: a user's star rating of a comment, with the
    stars validation and `validates :user_id, uniqueness: { scope: :comment_id }`,
    which makes the table an insertion gate keyed by (user, comment). */
module CommentRatings {
  import opened Wrappers
  import opened Schema

  /** Some row already records this user's rating of this comment. */
  predicate HasRated(rows: seq<CommentRatingRow>, userId: Id, commentId: Id) {
    exists i :: 0 <= i < |rows| && rows[i].userId == userId && rows[i].commentId == commentId
  }

  /** The unique index on (user_id, comment_id). */
  predicate OneRatingPerUserAndComment(rows: seq<CommentRatingRow>) {
    forall i, j :: 0 <= i < j < |rows| ==>
      rows[i].userId != rows[j].userId || rows[i].commentId != rows[j].commentId
  }

  predicate AllStarsInRange(rows: seq<CommentRatingRow>) {
    forall i :: 0 <= i < |rows| ==> StarsInRange(rows[i].stars)
  }

  /** The validations in declaration order: `belongs_to :user`, `belongs_to
      :comment`, the stars checks, then "has already rated this comment". */
  function CommentRatingErrors(rows: seq<CommentRatingRow>, commentExists: bool, userId: Option<Id>,
                               commentId: Id, stars: Option<int>): (errs: seq<ValidationError>)
    ensures errs == [] <==>
      userId.Some? && commentExists && stars.Some? && StarsInRange(stars.value)
      && !HasRated(rows, userId.value, commentId)
    ensures AlreadyRated in errs <==> userId.Some? && HasRated(rows, userId.value, commentId)
  {
    (if userId.Some? then [] else [UserMustExist])
      + (if commentExists then [] else [CommentMustExist])
      + StarsErrors(stars)
      + (if userId.Some? && HasRated(rows, userId.value, commentId) then [AlreadyRated] else [])
  }

  /** Saving a new rating: the row is appended when every validation passes,
      otherwise the table is left as it was and the errors are returned. */
  function Insert(rows: seq<CommentRatingRow>, id: Id, commentExists: bool, userId: Option<Id>,
                  commentId: Id, stars: Option<int>): (r: Result<seq<CommentRatingRow>, seq<ValidationError>>)
    ensures r.Success? <==> CommentRatingErrors(rows, commentExists, userId, commentId, stars) == []
    ensures r.Failure? ==> r.error != []
    ensures r.Success? ==> r.value == rows + [CommentRatingRow(id, userId.value, commentId, stars.value)]
    ensures r.Success? ==> HasRated(r.value, userId.value, commentId) && !HasRated(rows, userId.value, commentId)
  {
    var errs := CommentRatingErrors(rows, commentExists, userId, commentId, stars);
    if errs == [] then
      var row := CommentRatingRow(id, userId.value, commentId, stars.value);
      assert (rows + [row])[|rows|] == row;
      Success(rows + [row])
    else Failure(errs)
  }

  /** Every accepted insert keeps the (user, comment) key unique and every
      stored star in 1..5. */
  lemma InsertKeepsTableValid(rows: seq<CommentRatingRow>, id: Id, commentExists: bool, userId: Option<Id>,
                              commentId: Id, stars: Option<int>)
    requires OneRatingPerUserAndComment(rows) && AllStarsInRange(rows)
    requires Insert(rows, id, commentExists, userId, commentId, stars).Success?
    ensures OneRatingPerUserAndComment(Insert(rows, id, commentExists, userId, commentId, stars).value)
    ensures AllStarsInRange(Insert(rows, id, commentExists, userId, commentId, stars).value)
  {
    var after := Insert(rows, id, commentExists, userId, commentId, stars).value;
    forall i, j | 0 <= i < j < |after|
      ensures after[i].userId != after[j].userId || after[i].commentId != after[j].commentId
    {
      if j == |rows| {
        assert after[i] == rows[i];
      }
    }
  }

  /** A second rating by the same user of the same comment is rejected with
      "has already rated this comment". */
  lemma SecondRatingRejected(rows: seq<CommentRatingRow>, id: Id, id2: Id, userId: Id, commentId: Id,
                             stars: Option<int>, stars2: Option<int>)
    requires Insert(rows, id, true, Some(userId), commentId, stars).Success?
    ensures var once := Insert(rows, id, true, Some(userId), commentId, stars).value;
            var twice := Insert(once, id2, true, Some(userId), commentId, stars2);
            twice.Failure? && AlreadyRated in twice.error
  {
  }

  /** Uniqueness is scoped to the comment: a row for another user or another
      comment never blocks this user's rating of this comment. */
  lemma UniquenessIsPerUserAndComment(rows: seq<CommentRatingRow>, row: CommentRatingRow, userId: Id, commentId: Id)
    requires row.userId != userId || row.commentId != commentId
    ensures HasRated(rows + [row], userId, commentId) == HasRated(rows, userId, commentId)
  {
    if HasRated(rows + [row], userId, commentId) {
      var i :| 0 <= i < |rows + [row]| && (rows + [row])[i].userId == userId && (rows + [row])[i].commentId == commentId;
      assert i < |rows| && rows[i] == (rows + [row])[i];
    }
    if HasRated(rows, userId, commentId) {
      var i :| 0 <= i < |rows| && rows[i].userId == userId && rows[i].commentId == commentId;
      assert (rows + [row])[i] == rows[i];
    }
  }

  /** `has_many :user_comment_ratings, dependent: :destroy` on the comments
      in `commentIds`: exactly their ratings go, every other row stays, in order. */
  function WithoutRatingsOf(rows: seq<CommentRatingRow>, commentIds: set<Id>): (r: seq<CommentRatingRow>)
    ensures |r| <= |rows|
  {
    if |rows| == 0 then []
    else
      var init := WithoutRatingsOf(rows[..|rows| - 1], commentIds);
      var last := rows[|rows| - 1];
      if last.commentId in commentIds then init else init + [last]
  }

  /** Exactly the ratings of comments outside `commentIds` stay. */
  lemma {:induction false} WithoutRatingsOfMembers(rows: seq<CommentRatingRow>, commentIds: set<Id>)
    ensures forall x :: x in WithoutRatingsOf(rows, commentIds) <==> x in rows && x.commentId !in commentIds
    decreases |rows|
  {
    if |rows| > 0 {
      var front := rows[..|rows| - 1];
      WithoutRatingsOfMembers(front, commentIds);
      assert rows == front + [rows[|rows| - 1]];
    }
  }

  /** No primary key used twice. */
  predicate UniqueIds(rows: seq<CommentRatingRow>) {
    forall i, j :: 0 <= i < j < |rows| ==> rows[i].id != rows[j].id
  }

  /** Destroying a comment's ratings never makes a primary key repeat. */
  lemma {:induction false} WithoutRatingsKeepsIdsUnique(rows: seq<CommentRatingRow>, commentIds: set<Id>)
    requires UniqueIds(rows)
    ensures UniqueIds(WithoutRatingsOf(rows, commentIds))
    decreases |rows|
  {
    if |rows| > 0 {
      var front := rows[..|rows| - 1];
      var last := rows[|rows| - 1];
      WithoutRatingsKeepsIdsUnique(front, commentIds);
      var init := WithoutRatingsOf(front, commentIds);
      WithoutRatingsOfMembers(front, commentIds);
      if last.commentId !in commentIds {
        var r := init + [last];
        forall i | 0 <= i < |init| ensures init[i].id != last.id {
          assert init[i] in front;
          var j :| 0 <= j < |front| && front[j] == init[i];
          assert rows[j] == front[j];
        }
        forall i, j | 0 <= i < j < |r| ensures r[i].id != r[j].id {
          if j < |init| { assert r[i] == init[i] && r[j] == init[j]; }
        }
      }
    }
  }

  /** Destroying a comment's ratings keeps the table within its unique
      index and its star range. */
  lemma {:induction false} WithoutRatingsKeepsTableValid(rows: seq<CommentRatingRow>, commentIds: set<Id>)
    requires OneRatingPerUserAndComment(rows) && AllStarsInRange(rows)
    ensures OneRatingPerUserAndComment(WithoutRatingsOf(rows, commentIds))
    ensures AllStarsInRange(WithoutRatingsOf(rows, commentIds))
    decreases |rows|
  {
    var r := WithoutRatingsOf(rows, commentIds);
    WithoutRatingsOfMembers(rows, commentIds);
    forall i | 0 <= i < |r| ensures StarsInRange(r[i].stars) {
      assert r[i] in rows;
    }
    if |rows| > 0 {
      var front := rows[..|rows| - 1];
      var last := rows[|rows| - 1];
      WithoutRatingsKeepsTableValid(front, commentIds);
      var init := WithoutRatingsOf(front, commentIds);
      WithoutRatingsOfMembers(front, commentIds);
      if last.commentId !in commentIds {
        assert r == init + [last];
        forall i | 0 <= i < |init|
          ensures init[i].userId != last.userId || init[i].commentId != last.commentId
        {
          assert init[i] in front;
          var j :| 0 <= j < |front| && front[j] == init[i];
          assert rows[j] == front[j];
        }
      }
    }
  }
}
