# Blog forum model layer in Dafny

This project models the model layer of a Rails discussion forum: topics hold posts, posts collect comments, star ratings, free-text tags and per-user read marks. The model covers the part of that layer where correctness depends on more than a single write:

- **Tag normalisation and sync.** `Post#tag_names=` and `Post#tags_attributes=` fill one buffer of pending tag names. They strip and downcase each name, drop blanks, and `tag_names=` also removes duplicates. The `after_save` hook `sync_pending_tags` then find-or-creates one tag per distinct name and links the post to every such tag it does not have yet. It never removes a link.
- **Cached aggregates.**
  - `posts.comments_count` is maintained by the comment counter cache.
  - `posts.rating_average` is recomputed by the `Rating` callbacks after every save and destroy. It is NULL when the post has no ratings.
  - A data migration fills both columns once, from the detail tables.
- **Cascades.** Destroying a post destroys its comments, ratings, tag links and read marks. Destroying a comment destroys its user comment ratings.
- **Validations.**
  - Posts need a title of at most 20 characters and a body.
  - Ratings and comment ratings need stars in 1..5.
  - A user may rate a given comment only once.
- **Authorization.** The CanCan rule table of `Ability`.

## Layout

The database is modelled in two layers:

- Each write is a function from the tables before to the tables after (module `Store`, over the datatype `Tables`). The table invariants are proved about these functions:
  - keys are unique;
  - foreign keys point at existing rows;
  - stars are in range;
  - tag names and links are unique;
  - the cached columns are exact.
- The class `Storage.Database` holds the same tables as mutable fields. Each of its methods performs one write in place and is proved to leave exactly the tables the matching `Store` function computes.

`Posts.Post` is the in-memory record. It holds the pending tag-name buffer, the two setters (as methods with loops), `save`, and the tag hook, which runs against a `Database`. `Backfill` is the data migration, as three loops over the posts table.

Tag ids are positions in the tags table. Averages are exact rationals (`real`), and SQL NULL is `None`. Text is ASCII: whitespace means space, tab, newline, vertical tab, form feed and carriage return.

## Where the model follows the code

- **Tag-name lookup.** Names are matched exactly, as `Tag.find_or_create_by(name:)` does. They are stored already lower-cased, so no case-insensitive lookup is needed. A uniqueness conflict on concurrent creation is not modelled.
- **`tag_names=` appends.** It adds to the buffer and does not replace what is there (app/models/post.rb:39). Both setters accumulate into the same buffer, and the hook only adds links.
- **`comments_count` is nullable.** It is `Option<int>`, because the column is nullable until a later migration adds NOT NULL. The counter cache adds or subtracts one with NULL read as 0.
- **`average_rating_value` never reads the cache.** It tests for an attribute named `average_rating`, but the column is `rating_average` (app/models/post.rb:47, db/migrate/20251219080000_add_comments_count_and_rating_average_to_posts.rb:5).
  - The test is a boolean parameter of `Posts.AverageRatingValue`. When it is true, the parameter `selected` stands for a selected `average_rating` alias.
  - A plain record never has that attribute, so the method recomputes the average from the ratings every time. `Posts.AverageRatingValueIgnoresCache` proves the cached column has no influence.
- **`down` does nothing.** The backfill migration's `down` is empty, and `Backfill.Down` leaves every table unchanged.
- **Both migration branches are the same.** Each of the three statements in `up` is written twice: once inside `safety_assured` and once without it. The two copies are identical SQL, so the model has one pass per statement and the result does not depend on which branch runs.
- **The NULL pass changes nothing.** The third statement (`comments_count = 0 WHERE comments_count IS NULL`) never changes a row, because COUNT(*) is never NULL. `Backfill.NullPassChangesNothing` proves it.

## Model

| member | source | states |
|---|---|---|
| Text.Dedup | app/models/post.rb:39 | `uniq`: the result holds no element twice, holds exactly the input's elements, and is no longer than the input |
| Text.DedupPrefix | app/models/post.rb:39 | de-duplicating `a + b` keeps the de-duplicated `a` as its prefix, so names already buffered keep their order |
| Text.DedupOfDistinct | app/models/post.rb:39 | `uniq` leaves a list without duplicates unchanged |
| Text.StripSpec | app/models/post.rb:29 | `strip` returns a slice of its input with only blanks cut off on either side; the slice has no surrounding whitespace, is "" exactly for a blank string, and a stripped string is left alone |
| Text.StripLeftSuffix | app/models/post.rb:29 | `lstrip` keeps a suffix of the string and drops only whitespace |
| Text.StripRightPrefix | app/models/post.rb:29 | `rstrip` keeps a prefix of the string, drops only whitespace, and leaves nothing exactly for a blank string |
| Text.StripIgnoresPadding | app/models/post.rb:29 | blanks added on either side of a string do not change its `strip` |
| Text.StripDowncase | app/models/post.rb:29 | `downcase` commutes with `strip`, and downcasing twice is downcasing once |
| Text.SplitAllJoin | app/models/post.rb:38 | splitting pieces joined with a separator they do not contain gives the pieces back |
| TagNames.Canonicalize | app/models/post.rb:29-30 | `strip.downcase` gives "" exactly for a blank input, a canonical name otherwise, and leaves a canonical name unchanged |
| TagNames.CanonicalizeIsTrimmedDowncase | app/models/post.rb:29-30 | the normalised name is the input between its leading and trailing blanks, lower-cased letter by letter |
| TagNames.CanonicalizeFoldsCaseAndSpace | app/models/post.rb:29-30 | blanks around a name and the case of its letters do not change the normalised name |
| TagNames.AssignTagNamesExample | spec/models/post_spec.rb:82-85 | "Ruby, Rails, ruby " on a new post buffers exactly "ruby" then "rails" |
| TagNames.CanonicalNamesAreCanonical | app/models/post.rb:29-32 | every name that survives normalisation is non-empty, stripped and lower case |
| TagNames.AssignTagNamesSpec | app/models/post.rb:36-40 | after `tag_names=` the buffer has no duplicates, holds exactly the old names and the new ones, and starts with the old distinct names in order |
| TagNames.AssignTagNamesCanonical | app/models/post.rb:36-40 | `tag_names=` keeps a buffer of canonical names canonical |
| TagNames.AttributeNamesSnoc | app/models/post.rb:28-33 | one more `tags_attributes` entry appends exactly its canonical name, or nothing when the name is blank or missing; duplicates are kept |
| TagNames.AttributeNamesCanonical | app/models/post.rb:24-34 | `tags_attributes=` keeps a buffer of canonical names canonical |
| TagNames.NamesFromListIgnoresSplitQuirk | app/models/post.rb:38 | Ruby's `split` dropping trailing empty pieces does not change the extracted names |
| TagNames.TagNamesRoundTrip | app/models/post.rb:36-44 | feeding the ", "-joined list of distinct canonical comma-free names to `tag_names=` on an empty buffer gives back exactly those names |
| TagSync.IndexOf | app/models/post.rb:73 | `find_by(name:)` returns the first tag of that name, and none exactly when no tag has it |
| TagSync.FindOrCreate | app/models/post.rb:73 | the returned id names a tag of that name; the table grows by that name only when it was absent |
| TagSync.ResolveAllSpec | app/models/post.rb:72-74 | every name is resolved to the id of a tag of that name; afterwards the tags table holds exactly the old names and the resolved ones |
| TagSync.ResolveAllKeepsTagsValid | app/models/post.rb:72-74 | resolution never stores a tag name twice, and stores only canonical names when given canonical names |
| TagSync.ResolveAllReusesExisting | app/models/post.rb:72-74 | names that all exist already create no tag |
| TagSync.TagIdsOf | app/models/post.rb:78 | `tags.pluck(:id)` holds exactly the ids of the tags linked to the post |
| TagSync.AddLinks | app/models/post.rb:79-83 | the link loop only appends; each appended link belongs to the post and a resolved id; the links afterwards are the old ones plus one per resolved id; no link is duplicated |
| TagSync.SyncKeepsTablesValid | app/models/post.rb:69-86 | the hook keeps tag names unique and canonical, links unique and pointing at tags, and never removes a tag or a link |
| TagSync.SyncLinksEveryName | app/models/post.rb:72-83 | after the hook every buffered name has a tag, and that tag is linked to the post |
| TagSync.SyncAddsNames | app/models/post.rb:76-83 | the post's tag names afterwards are its old names together with the buffered ones |
| TagSync.SyncLeavesOtherPosts | app/models/post.rb:79-83 | the hook does not change another post's tags |
| TagSync.SyncTwiceIsNoOp | app/models/post.rb:78-83 | syncing the same names a second time changes neither table |
| TagSync.AddLinksAllPresent | app/models/post.rb:80-81 | when every resolved id is linked already, the link loop adds nothing |
| Schema.CountComments | app/models/comment.rb:2 | the count is 0 exactly when no comment belongs to the post |
| Schema.Average | app/models/rating.rb:12 | AVG(stars) is NULL exactly when the post has no ratings |
| Schema.StarsSumBounds | app/models/rating.rb:4 | with every star in 1..5, a post's star sum lies between its rating count and five times it |
| Schema.AverageInRange | app/models/rating.rb:4-12 | a non-NULL average lies in [1, 5] |
| Schema.StarsErrors | app/models/rating.rb:4 | stars pass exactly when present and in 1..5; the presence error is raised exactly for nil |
| Comments.CommentErrors | app/models/comment.rb:2-9 | a comment is accepted exactly when its post exists, it has a user and its body is not blank |
| Comments.AdjustCountFrame | app/models/comment.rb:2 | the counter cache writes only `comments_count` of the comment's post |
| Comments.AdjustCountStep | app/models/comment.rb:2 | the post's count moves by exactly the given step, with a NULL count read as 0 |
| Comments.CreateKeepsCountsAccurate | app/models/comment.rb:2 | exact counts stay exact after a comment is created |
| Comments.DestroyKeepsCountsAccurate | app/models/comment.rb:2 | exact counts stay exact after a comment is destroyed |
| Ratings.RatingErrors | app/models/rating.rb:2-4 | a rating is accepted exactly when its post exists and its stars are present and in 1..5 |
| Ratings.SetAverageFrame | app/models/rating.rb:13 | `update_column` writes only `rating_average` of the owning post |
| Ratings.RecomputeKeepsAveragesAccurate | app/models/rating.rb:11-13 | recomputing one post's average keeps all averages exact when no other post's ratings changed |
| Ratings.CreateKeepsAveragesAccurate | app/models/rating.rb:6-13 | exact averages stay exact after a rating is created |
| Ratings.UpdateKeepsAveragesAccurate | app/models/rating.rb:6-13 | exact averages stay exact after a rating's stars change |
| Ratings.DestroyKeepsAveragesAccurate | app/models/rating.rb:7-13 | exact averages stay exact after a rating is destroyed |
| Ratings.LastRatingGoneMeansNull | app/models/rating.rb:7-13 | destroying a post's only rating leaves an average of NULL, not 0 |
| CommentRatings.CommentRatingErrors | app/models/user_comment_rating.rb:2-6 | a comment rating is accepted exactly when comment and user exist, the stars are in 1..5 and the user has not rated the comment; "already rated" is raised exactly for a repeat |
| CommentRatings.Insert | app/models/user_comment_rating.rb:5-6 | an accepted rating appends exactly one row; a rejected one returns its errors and leaves the table alone |
| CommentRatings.InsertKeepsTableValid | app/models/user_comment_rating.rb:5-6 | inserting keeps one rating per (user, comment) and every star in range |
| CommentRatings.SecondRatingRejected | app/models/user_comment_rating.rb:6 | a second rating by the same user of the same comment is rejected |
| CommentRatings.UniquenessIsPerUserAndComment | app/models/user_comment_rating.rb:6 | a row for another user or another comment does not count as having rated |
| CommentRatings.WithoutRatingsOfMembers | app/models/comment.rb:6 | the cascade removes exactly the ratings of the destroyed comments |
| CommentRatings.WithoutRatingsKeepsTableValid | app/models/comment.rb:6 | the cascade keeps the comment-rating table valid |
| CommentRatings.WithoutRatingsKeepsIdsUnique | app/models/comment.rb:6 | the cascade never makes a comment-rating primary key repeat |
| Cascade.CommentsNotOnPostMembers | app/models/post.rb:4 | destroying a post removes exactly its comments |
| Cascade.RatingsNotOnPostMembers | app/models/post.rb:7 | destroying a post removes exactly its ratings |
| Cascade.PostTagsNotOnPostMembers | app/models/post.rb:5 | destroying a post removes exactly its tag links |
| Cascade.ReadMarksNotOnPostMembers | app/models/post.rb:9 | destroying a post removes exactly its read marks |
| Cascade.CommentsNotOnPostCounts | app/models/post.rb:4 | the comment cascade leaves every other post's comment count as it was |
| Cascade.RatingsNotOnPostAggregates | app/models/post.rb:7 | the rating cascade leaves every other post's rating count and star sum as they were |
| Cascade.DestroyPostKeepsAggregatesAccurate | app/models/post.rb:4-9 | after a post and its comments and ratings are gone, the remaining posts' caches are still exact |
| Store.CommentCreated | app/models/comment.rb:2-9 | a save succeeds exactly when the comment is valid; a rejected comment changes no table |
| Store.CommentDestroyed | app/models/comment.rb:2-6 | a destroy succeeds exactly when the comment exists; otherwise nothing changes |
| Store.RatingCreated | app/models/rating.rb:2-7 | a save succeeds exactly when its post exists and its stars are in 1..5; otherwise nothing changes |
| Store.RatingUpdated | app/models/rating.rb:2-6 | a missing rating is reported as not found; an update succeeds when the rating exists, its post exists, and the stars are present and in 1..5; a successful update had valid stars and a rating with that id whose post exists; a failed update changes nothing |
| Store.RatingUpdatedNeedsPost | app/models/rating.rb:2 | with unique rating ids, updating a rating whose post is gone fails validation and changes nothing |
| Store.RatingUpdatedStoresStars | app/models/rating.rb:4-6 | a successful update writes the new stars into that rating's row only and changes no other table except the posts' cached averages |
| Store.RatingDestroyed | app/models/rating.rb:7 | a destroy succeeds exactly when the rating exists; otherwise nothing changes |
| Store.CommentRated | app/models/user_comment_rating.rb:1-6 | a comment rating is stored exactly when valid and not a repeat; otherwise nothing changes |
| Store.PostDestroyed | app/models/post.rb:4-9 | a destroy succeeds exactly when the post exists; otherwise nothing changes |
| Store.PostInserted | app/models/post.rb:1-3 | an inserted post gets the next id, which is then a post id |
| Store.PostUpdated | app/models/post.rb:16-18 | an update succeeds exactly when the post exists; otherwise nothing changes |
| Store.CommentCreatedKeepsValid | app/models/comment.rb:2-9 | creating a comment keeps every table invariant |
| Store.CommentCreatedKeepsAccurate | app/models/comment.rb:2 | creating a comment keeps the caches exact |
| Store.CommentCreatedCountsOnce | app/models/comment.rb:2 | a created comment adds exactly one to its post's live count and nothing to any other |
| Store.CommentCreatedStoresRow | app/models/comment.rb:1-9 | a saved comment is stored as the row of the given post, user and body under the next id; only the posts' cached counts change besides |
| Store.CommentCreatedCountFromOld | app/models/comment.rb:2 | on any tables, the comment's post count becomes its old value plus one, a NULL count read as 0 |
| Store.CommentDestroyedKeepsValid | app/models/comment.rb:2-6 | destroying a comment keeps every table invariant |
| Store.CommentDestroyedKeepsAccurate | app/models/comment.rb:2 | destroying a comment keeps the caches exact |
| Store.CommentDestroyedLeavesNoTrace | app/models/comment.rb:6 | after a comment is destroyed neither it nor any rating of it remains |
| Store.CommentDestroyedCountFromOld | app/models/comment.rb:2 | on any tables, the destroyed comment's post count becomes its old value minus one, a NULL count read as 0 |
| Store.RatingCreatedKeepsValid | app/models/rating.rb:2-6 | creating a rating keeps every table invariant |
| Store.RatingCreatedKeepsAccurate | app/models/rating.rb:6-13 | creating a rating keeps the caches exact |
| Store.RatingCreatedSetsAverage | app/models/rating.rb:6-13 | after a rating is created its post's average is the mean over all of the post's ratings |
| Store.RatingCreatedStoresRow | app/models/rating.rb:1-6 | a saved rating is stored as the row of the given post and stars under the next id; only the posts' cached averages change besides |
| Store.RatingCreatedAverageFromOld | app/models/rating.rb:6-13 | after a create the post's average is (old sum + new stars) / (old count + 1) |
| Store.RatingUpdatedSetsAverage | app/models/rating.rb:6-13 | after a rating is updated its post's average is the mean over all of the post's ratings, whatever the cache held before |
| Store.RatingUpdatedKeepsValid | app/models/rating.rb:4-6 | updating a rating keeps every table invariant |
| Store.RatingUpdatedKeepsAccurate | app/models/rating.rb:6-13 | updating a rating keeps the caches exact |
| Store.RatingDestroyedKeepsValid | app/models/rating.rb:7 | destroying a rating keeps every table invariant |
| Store.RatingDestroyedKeepsAccurate | app/models/rating.rb:7-13 | destroying a rating keeps the caches exact |
| Store.RatingDestroyedRemovesRow | app/models/rating.rb:7 | destroying an existing rating removes exactly its row; only the posts' cached averages change besides |
| Store.RatingDestroyedAverageFromOld | app/models/rating.rb:7-13 | after a destroy the post's average is (old sum − its stars) / (old count − 1), or NULL when no rating is left |
| Store.LastRatingDestroyedLeavesNull | app/models/rating.rb:7-13 | destroying a post's only rating sets its cached average to NULL |
| Store.CommentRatedKeepsValid | app/models/user_comment_rating.rb:5-6 | rating a comment keeps every table invariant, including one rating per (user, comment) |
| Store.PostDestroyedKeepsValid | app/models/post.rb:4-9 | destroying a post and its dependents keeps every table invariant |
| Store.PostDestroyedKeepsAccurate | app/models/post.rb:4-7 | destroying a post keeps the remaining posts' caches exact |
| Store.PostDestroyedLeavesNoTrace | app/models/post.rb:4-9 | after a post is destroyed no comment, rating, link, read mark or rating of its comments refers to it |
| Store.PostInsertedKeepsValid | app/models/post.rb:1-3 | inserting a post keeps every table invariant |
| Store.PostInsertedKeepsAccurate | app/models/post.rb:1-3 | a new post starts with exact caches: a count of 0 and no average |
| Store.PostInsertedStoresRow | app/models/post.rb:1-3 | an inserted post is the row of the given topic, user, title and body under the next id, with count 0 and no average; no other table changes |
| Store.PostUpdatedKeepsValid | app/models/post.rb:16-18 | updating title and body keeps every invariant, the caches and the set of post ids |
| Store.PostUpdatedStoresTitleAndBody | app/models/post.rb:16-18 | updating an existing post writes the new title and body into its row only and changes nothing else |
| Store.TagsSyncedKeepsValid | app/models/post.rb:69-86 | the tag hook keeps every table invariant and does not touch the caches |
| Storage.Database.CreateComment | app/models/comment.rb:2-9 | the insert plus counter-cache increment leaves exactly the tables `Store.CommentCreated` computes |
| Storage.Database.DestroyComment | app/models/comment.rb:2-6 | the delete, rating cascade and counter decrement leave exactly the tables `Store.CommentDestroyed` computes |
| Storage.Database.CreateRating | app/models/rating.rb:4-13 | the insert plus average recompute leaves exactly the tables `Store.RatingCreated` computes |
| Storage.Database.UpdateRating | app/models/rating.rb:4-13 | the update plus average recompute leaves exactly the tables `Store.RatingUpdated` computes |
| Storage.Database.DestroyRating | app/models/rating.rb:7-13 | the delete plus average recompute leaves exactly the tables `Store.RatingDestroyed` computes |
| Storage.Database.RateComment | app/models/user_comment_rating.rb:5-6 | the guarded insert leaves exactly the tables `Store.CommentRated` computes |
| Storage.Database.DestroyPost | app/models/post.rb:4-9 | the post delete and its cascades leave exactly the tables `Store.PostDestroyed` computes |
| Storage.Database.InsertPost | app/models/post.rb:1-3 | the insert leaves exactly the tables `Store.PostInserted` computes |
| Storage.Database.UpdatePost | app/models/post.rb:16-18 | the update leaves exactly the tables `Store.PostUpdated` computes |
| Storage.Database.FindOrCreateTag | app/models/post.rb:73 | the lookup loop finds the first tag of that name or appends one, as `TagSync.FindOrCreate` |
| Storage.Database.FindOrCreatePostTag | app/models/post.rb:81 | the lookup loop finds the link or appends it, as `TagSync.FindOrCreateLink` |
| Storage.Database.TagIdsOfPost | app/models/post.rb:78 | the plucked ids are exactly the ids of the tags linked to the post |
| Storage.FirstMatchIsIndexOf | app/models/post.rb:73 | the first position holding a name is the one `find_by` returns |
| Posts.PostErrors | app/models/post.rb:2-18 | a post is valid exactly when topic and user are set, the title is present and at most 20 characters, and the body is present; each title and body error is raised exactly when its condition fails |
| Posts.Saved | app/models/post.rb:16-22 | `save` fails exactly on a validation error, and then changes nothing; on success the record holds its id and an empty buffer, and a persisted record keeps its id |
| Posts.PluckedNamesAreLinked | app/models/post.rb:42-44 | the plucked names are exactly the names of the tags linked to the post |
| Posts.PluckedNamesDistinct | app/models/post.rb:42-44 | with unique tag names and links, `tag_names` lists no name twice |
| Posts.TagNamesReadBack | app/models/post.rb:36-44 | assigning a post's printed `tag_names` to an empty buffer gives back its plucked names |
| Posts.CommentsCountValueExact | app/models/post.rb:54-60 | with exact caches, both branches of `comments_count_value` give the live comment count |
| Posts.AverageRatingValueIgnoresCache | app/models/post.rb:46-52 | without an `average_rating` attribute the result does not depend on the cached `rating_average` |
| Posts.AverageRatingValueIsLive | app/models/post.rb:46-52 | without that attribute the result is the live mean: nil exactly when there are no ratings, otherwise in [1, 5], and equal to the cached column when the caches are exact |
| Posts.ReadByAfterPostDestroyed | app/models/post.rb:62-65 | once a post is destroyed nobody has read it, and every other post's readers are unchanged |
| Posts.PersistedKeepsValid | app/models/post.rb:1-18 | the row write of a valid save keeps every invariant and the caches, and its id is a post id |
| Posts.SavedKeepsValid | app/models/post.rb:16-22 | a save, tag hook included, keeps every table invariant and the caches |
| Posts.PluckedNamesUnlinked | app/models/post.rb:42-44 | a post with no links has no tag names |
| Posts.NewPostHasNoTags | app/models/post.rb:42-44 | the next post id has no tags yet |
| Posts.SavedTagNames | app/models/post.rb:69-86 | after a successful save the post's tag names are its old names together with the buffered ones; a new post gets exactly the buffered names |
| Posts.Post.constructor | app/models/post.rb:20-25 | a new record has no id and an empty buffer (nil and [] behave alike) |
| Posts.Post.SetTagsAttributes | app/models/post.rb:24-34 | the loop appends each entry's canonical name, skipping blanks, keeping duplicates |
| Posts.Post.SetTagNames | app/models/post.rb:36-40 | the buffer becomes the old buffer plus the new names, de-duplicated |
| Posts.Post.SyncPendingTags | app/models/post.rb:69-86 | the resolve and link loops leave tags and links exactly as `TagSync.Sync` computes, and the buffer is empty |
| Posts.Post.Save | app/models/post.rb:16-22 | database, record and result are exactly what `Posts.Saved` computes |
| Abilities.GuestHasNoPermission | app/models/ability.rb:7 | a guest may do nothing |
| Abilities.SignedInMayReadAndCreate | app/models/ability.rb:10-15 | a signed-in user may read and create any post and any comment |
| Abilities.OnlyOwnerMayModify | app/models/ability.rb:18-21 | updating or destroying a post or comment is allowed exactly to its owner |
| Abilities.NothingElseIsGranted | app/models/ability.rb:6-22 | anything granted is granted to a signed-in user, on a post or comment, for one of the named actions |
| Abilities.NoOneModifiesOthersRecords | app/models/ability.rb:18-21 | a user may see another user's post or comment but not update or destroy it |
| Backfill.BackfillMakesAccurate | db/migrate/20251220064914_backfill_comments_count_and_rating_average_to_posts.rb:4-67 | after `up` every post's count and average agree with its comments and ratings, and no count is NULL |
| Backfill.NullPassChangesNothing | db/migrate/20251220064914_backfill_comments_count_and_rating_average_to_posts.rb:51-66 | the third statement never changes a row once the first has run |
| Backfill.BackfillChangesOnlyCaches | db/migrate/20251220064914_backfill_comments_count_and_rating_average_to_posts.rb:9-65 | `up` writes only `comments_count` and `rating_average`; every other column and table is unchanged |
| Backfill.BackfillOfAccurate | db/migrate/20251220064914_backfill_comments_count_and_rating_average_to_posts.rb:4-67 | on tables whose caches are exact, `up` changes nothing |
| Backfill.BackfillIdempotent | db/migrate/20251220064914_backfill_comments_count_and_rating_average_to_posts.rb:4-67 | running `up` twice gives the same tables as running it once |
| Backfill.BackfillKeepsValid | db/migrate/20251220064914_backfill_comments_count_and_rating_average_to_posts.rb:4-67 | `up` keeps every table invariant |
| Backfill.UpdateCounts | db/migrate/20251220064914_backfill_comments_count_and_rating_average_to_posts.rb:5-26 | the loop sets every post's count to the number of its comments |
| Backfill.UpdateAverages | db/migrate/20251220064914_backfill_comments_count_and_rating_average_to_posts.rb:28-49 | the loop sets every post's average to AVG(stars) of its ratings, NULL when it has none |
| Backfill.FillNullCounts | db/migrate/20251220064914_backfill_comments_count_and_rating_average_to_posts.rb:51-66 | the loop sets NULL counts to 0 and leaves the other rows alone |
| Backfill.Up | db/migrate/20251220064914_backfill_comments_count_and_rating_average_to_posts.rb:4-67 | the three statements in order leave exactly the tables `Backfill.Backfilled` computes |
| Backfill.Down | db/migrate/20251220064914_backfill_comments_count_and_rating_average_to_posts.rb:69-71 | `down` leaves every table as it was |

## Left out

- Concurrency: the races around `find_or_create_by` and concurrent rating writes. Every operation runs alone.
- Floating point: `.to_f` and the float storage of `rating_average`. The average is an exact rational.
- Unicode: `strip`, `downcase` and `blank?` are modelled on ASCII only, without NUL. ActiveSupport's `blank?` also treats Unicode spaces such as U+00A0 as blank, while `strip` keeps them. So a tag name "\u00A0" survives `strip`, is skipped as blank by `tags_attributes=` and `tag_names=` (app/models/post.rb:30, 38), but is kept as a tag by the model. Likewise a post title or body, or a comment body, of "\u00A0" fails the `presence:` validation in Rails but passes in the model.
- Topic and user existence: a topic or user id that is set is taken to refer to an existing row, and nil fails the `belongs_to` check. Devise and the users table are not modelled.
- `has_one_attached :image`, the `created_between` scope and the mark-as-read action. These are file storage, time-zone day boundaries, and a route without model code.
- Controllers, routing and framework configuration, and the schema-only and user-backfill migrations.
- Tag-name lookup: a uniqueness conflict between concurrent creators of the same tag cannot occur in a sequential model.
- Posts.PluckedNames: `tags.pluck` has no guaranteed order in SQL; the model uses link insertion order.
- Store.PostUpdated: saving a persisted post writes only title and body. Changing a saved post's topic or user is not modelled.
- Storage.Database: the table invariants and exact caches are proved about the `Store` functions each method is tied to, not restated in the methods' own postconditions.
