/** The data migration that fills the two cached columns of `posts` from the
    detail tables. Its `up` runs three UPDATE statements, one after another,
    over every post row: `comments_count` from COUNT(*) of the post's
    comments, `rating_average` from AVG(stars) of its ratings (NULL when
    there are none), and finally `comments_count = 0` where it is still
    NULL. Both branches of each `respond_to?(:safety_assured)` test run the
    same statement, so each statement is one pass here. Its `down` does
    nothing. */
module Backfill {
  import opened Wrappers
  import opened Schema
  import opened Store
  import opened Storage

  /** One row of `UPDATE posts SET comments_count = (SELECT COUNT(*) ...)`. */
  function CountRow(p: PostRow, comments: seq<CommentRow>): PostRow {
    p.(commentsCount := Some(CountComments(comments, p.id)))
  }

  /** One row of `UPDATE posts SET rating_average = (SELECT AVG(stars) ...)`. */
  function AverageRow(p: PostRow, ratings: seq<RatingRow>): PostRow {
    p.(ratingAverage := Average(ratings, p.id))
  }

  /** One row of `UPDATE posts SET comments_count = 0 WHERE comments_count IS NULL`. */
  function NullRow(p: PostRow): PostRow {
    if p.commentsCount.None? then p.(commentsCount := Some(0)) else p
  }

  function CountPass(posts: seq<PostRow>, comments: seq<CommentRow>): seq<PostRow> {
    seq(|posts|, i requires 0 <= i < |posts| => CountRow(posts[i], comments))
  }

  function AveragePass(posts: seq<PostRow>, ratings: seq<RatingRow>): seq<PostRow> {
    seq(|posts|, i requires 0 <= i < |posts| => AverageRow(posts[i], ratings))
  }

  function NullPass(posts: seq<PostRow>): seq<PostRow> {
    seq(|posts|, i requires 0 <= i < |posts| => NullRow(posts[i]))
  }

  /** The tables after `up`: the three passes in order over `posts`. */
  function Backfilled(t: Tables): Tables {
    t.(posts := NullPass(AveragePass(CountPass(t.posts, t.comments), t.ratings)))
  }

  /** After `up` every post's cached count and average agree with its
      comments and ratings, and no `comments_count` is NULL. */
  lemma BackfillMakesAccurate(t: Tables)
    ensures Accurate(Backfilled(t))
    ensures forall i :: 0 <= i < |Backfilled(t).posts| ==> Backfilled(t).posts[i].commentsCount.Some?
  {
    var after := Backfilled(t).posts;
    forall i | 0 <= i < |after|
      ensures after[i].commentsCount == Some(CountComments(t.comments, after[i].id))
      ensures after[i].ratingAverage == Average(t.ratings, after[i].id)
    {
      assert after[i] == NullRow(AverageRow(CountRow(t.posts[i], t.comments), t.ratings));
    }
  }

  /** The last statement never changes a row: COUNT(*) is never NULL, so
      once the first statement has run no `comments_count` is NULL. */
  lemma NullPassChangesNothing(t: Tables)
    ensures Backfilled(t).posts == AveragePass(CountPass(t.posts, t.comments), t.ratings)
  {
    var mid := AveragePass(CountPass(t.posts, t.comments), t.ratings);
    forall i | 0 <= i < |mid| ensures NullPass(mid)[i] == mid[i] {
      assert mid[i].commentsCount == Some(CountComments(t.comments, t.posts[i].id));
    }
  }

  /** `up` touches only the two cached columns of `posts`: every other
      column and every other table keep their values. */
  lemma BackfillChangesOnlyCaches(t: Tables)
    ensures Backfilled(t).(posts := t.posts) == t
    ensures |Backfilled(t).posts| == |t.posts|
    ensures forall i :: 0 <= i < |t.posts| ==>
      Backfilled(t).posts[i] == t.posts[i].(commentsCount := Backfilled(t).posts[i].commentsCount,
                                            ratingAverage := Backfilled(t).posts[i].ratingAverage)
  {
  }

  /** Rows whose caches are already exact are left as they are. */
  lemma BackfillOfAccurate(t: Tables)
    requires Accurate(t)
    ensures Backfilled(t) == t
  {
    var after := Backfilled(t).posts;
    forall i | 0 <= i < |t.posts| ensures after[i] == t.posts[i] {
      var p := t.posts[i];
      assert p.commentsCount == Some(CountComments(t.comments, p.id));
      assert p.ratingAverage == Average(t.ratings, p.id);
      assert CountRow(p, t.comments) == p;
      assert AverageRow(p, t.ratings) == p;
    }
  }

  /** Running `up` twice gives the same tables as running it once. */
  lemma BackfillIdempotent(t: Tables)
    ensures Backfilled(Backfilled(t)) == Backfilled(t)
  {
    BackfillMakesAccurate(t);
    BackfillOfAccurate(Backfilled(t));
  }

  /** The key sets are untouched, so `up` keeps every table invariant. */
  lemma BackfillKeepsValid(t: Tables)
    requires Valid(t)
    ensures Valid(Backfilled(t))
  {
    var after := Backfilled(t).posts;
    BackfillChangesOnlyCaches(t);
    assert PostIds(after) == PostIds(t.posts) by {
      forall x | x in PostIds(t.posts) ensures x in PostIds(after) {
        var j :| 0 <= j < |t.posts| && t.posts[j].id == x;
        assert after[j].id == x;
      }
    }
  }

  /** The first statement, row by row. */
  method UpdateCounts(db: Database)
    modifies db`posts
    ensures db.posts == CountPass(old(db.posts), db.comments)
  {
    ghost var start := db.posts;
    var i := 0;
    while i < |db.posts|
      invariant 0 <= i <= |db.posts| == |start|
      invariant forall k :: 0 <= k < i ==> db.posts[k] == CountRow(start[k], db.comments)
      invariant forall k :: i <= k < |db.posts| ==> db.posts[k] == start[k]
    {
      var n := CountComments(db.comments, db.posts[i].id);
      db.posts := db.posts[i := db.posts[i].(commentsCount := Some(n))];
      i := i + 1;
    }
  }

  /** The second statement, row by row. */
  method UpdateAverages(db: Database)
    modifies db`posts
    ensures db.posts == AveragePass(old(db.posts), db.ratings)
  {
    ghost var start := db.posts;
    var i := 0;
    while i < |db.posts|
      invariant 0 <= i <= |db.posts| == |start|
      invariant forall k :: 0 <= k < i ==> db.posts[k] == AverageRow(start[k], db.ratings)
      invariant forall k :: i <= k < |db.posts| ==> db.posts[k] == start[k]
    {
      var avg := Average(db.ratings, db.posts[i].id);
      db.posts := db.posts[i := db.posts[i].(ratingAverage := avg)];
      i := i + 1;
    }
  }

  /** The third statement: only rows whose count is NULL are written. */
  method FillNullCounts(db: Database)
    modifies db`posts
    ensures db.posts == NullPass(old(db.posts))
  {
    ghost var start := db.posts;
    var i := 0;
    while i < |db.posts|
      invariant 0 <= i <= |db.posts| == |start|
      invariant forall k :: 0 <= k < i ==> db.posts[k] == NullRow(start[k])
      invariant forall k :: i <= k < |db.posts| ==> db.posts[k] == start[k]
    {
      if db.posts[i].commentsCount.None? {
        db.posts := db.posts[i := db.posts[i].(commentsCount := Some(0))];
      }
      i := i + 1;
    }
  }

  /** `up`: the three statements in order. */
  method Up(db: Database)
    modifies db`posts
    ensures db.Snapshot() == Backfilled(old(db.Snapshot()))
  {
    UpdateCounts(db);
    UpdateAverages(db);
    FillNullCounts(db);
  }

  /** `down`: no rollback; every table is left as it is. */
  method Down(db: Database)
    ensures db.Snapshot() == old(db.Snapshot())
  {
  }
}
