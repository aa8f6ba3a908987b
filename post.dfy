/** The Post model: its validations, the pending tag-name buffer and its two
    setters, the `after_save` hook that turns the buffer into tags and
    post_tags rows, and the readers `tag_names`, `comments_count_value`,
    `average_rating_value` and `read_by?`. */
module Posts {
  import opened Wrappers
  import opened Text
  import opened TagNames
  import opened Schema
  import opened TagSync
  import opened Cascade
  import opened Store
  import opened Storage

  /** `validates :title, length: { maximum: 20 }`. */
  const MaxTitleLength := 20

  /** `belongs_to :topic`, `belongs_to :user`, then the title and body
      validations, in declaration order. A blank title that is also too
      long fails both title checks. */
  function PostErrors(topicId: Option<Id>, userId: Option<Id>, title: string, body: string): (errs: seq<ValidationError>)
    ensures errs == [] <==>
      topicId.Some? && userId.Some? && !IsBlank(title) && |title| <= MaxTitleLength && !IsBlank(body)
    ensures TitleBlank in errs <==> IsBlank(title)
    ensures TitleTooLong in errs <==> |title| > MaxTitleLength
    ensures BodyBlank in errs <==> IsBlank(body)
  {
    (if topicId.Some? then [] else [TopicMustExist])
      + (if userId.Some? then [] else [UserMustExist])
      + (if IsBlank(title) then [TitleBlank] else [])
      + (if |title| > MaxTitleLength then [TitleTooLong] else [])
      + (if IsBlank(body) then [BodyBlank] else [])
  }

  /** The attributes of a Post object in memory: `id` stays nil until the
      first successful save; a nil `pending_tag_names` behaves as []. */
  datatype Attributes = Attributes(
    id: Option<Id>,
    topicId: Option<Id>,
    userId: Option<Id>,
    title: string,
    body: string,
    pendingTagNames: seq<string>)

  /** The row write of a save that passed validation: an INSERT for a new
      record, an UPDATE of title and body for a persisted one. */
  function Persisted(t: Tables, p: Attributes): (r: (Tables, Id))
    requires p.topicId.Some? && p.userId.Some?
  {
    match p.id
    case None => PostInserted(t, p.topicId.value, p.userId.value, p.title, p.body)
    case Some(id) => (PostUpdated(t, id, p.title, p.body).0, id)
  }

  /** `save`: validation, the row write, then `sync_pending_tags`, which
      empties the buffer. A failed validation writes nothing. */
  function Saved(t: Tables, p: Attributes): (r: (Tables, Attributes, Result<Id, seq<ValidationError>>))
    ensures r.2.Failure? <==> PostErrors(p.topicId, p.userId, p.title, p.body) != []
    ensures r.2.Failure? ==> r.0 == t && r.1 == p && r.2.error != []
    ensures r.2.Success? ==> r.1 == p.(id := Some(r.2.value), pendingTagNames := [])
    ensures r.2.Success? && p.id.Some? ==> r.2.value == p.id.value
  {
    var errs := PostErrors(p.topicId, p.userId, p.title, p.body);
    if errs != [] then (t, p, Failure(errs))
    else
      var (t1, id) := Persisted(t, p);
      (TagsSynced(t1, id, p.pendingTagNames), p.(id := Some(id), pendingTagNames := []), Success(id))
  }

  /** `tags.pluck(:name)`: the names of the post's tags, in link order. */
  function PluckedNames(tags: seq<string>, links: seq<PostTag>, postId: Id): seq<string>
    requires forall k :: 0 <= k < |links| ==> links[k].tagId < |tags|
    decreases |links|
  {
    if |links| == 0 then []
    else
      var last := links[|links| - 1];
      PluckedNames(tags, links[..|links| - 1], postId) + (if last.postId == postId then [tags[last.tagId]] else [])
  }

  /** `tag_names`: the post's tag names joined with ", "; a record that was
      never saved has no tags. */
  function TagNamesOf(t: Tables, id: Option<Id>): string
    requires forall k :: 0 <= k < |t.postTags| ==> t.postTags[k].tagId < |t.tags|
  {
    if id.None? then "" else Join(PluckedNames(t.tags, t.postTags, id.value), ", ")
  }

  /** `comments_count_value`: the cached column when the record has it
      (`nil.to_i` is 0), the live number of comments otherwise. */
  function CommentsCountValue(t: Tables, k: nat, hasCommentsCount: bool): int
    requires k < |t.posts|
  {
    if hasCommentsCount then t.posts[k].commentsCount.GetOr(0)
    else CountComments(t.comments, t.posts[k].id)
  }

  /** `average_rating_value`. It tests for an attribute named
      `average_rating`, which the posts table does not have (its column is
      `rating_average`): only a query that selects an `average_rating` alias
      makes the first branch run, and then `selected` is that alias's value.
      Otherwise the ratings are averaged afresh and the cached column is
      never read. */
  function AverageRatingValue(t: Tables, k: nat, hasAverageRating: bool, selected: Option<real>): Option<real>
    requires k < |t.posts|
  {
    if hasAverageRating then selected
    else Average(t.ratings, t.posts[k].id)
  }

  /** `read_by?(user)`: false for a guest, otherwise whether the user is
      among the post's readers. */
  predicate ReadBy(marks: seq<ReadMark>, postId: Id, user: Option<Id>) {
    user.Some? && ReadMark(user.value, postId) in marks
  }

  // ---------------------------------------------------------------------
  // The readers against the tables

  /** The plucked names are exactly the names of the tags linked to the post. */
  lemma {:induction false} PluckedNamesAreLinked(tags: seq<string>, links: seq<PostTag>, postId: Id)
    requires forall k :: 0 <= k < |links| ==> links[k].tagId < |tags|
    ensures (set n | n in PluckedNames(tags, links, postId)) == LinkedNames(tags, links, postId)
    decreases |links|
  {
    if |links| > 0 {
      var init := links[..|links| - 1];
      var last := links[|links| - 1];
      PluckedNamesAreLinked(tags, init, postId);
      var before := LinkedNames(tags, init, postId);
      var extra: set<string> := if last.postId == postId then {tags[last.tagId]} else {};
      assert LinkedNames(tags, links, postId) == before + extra by {
        forall n | n in LinkedNames(tags, links, postId) ensures n in before + extra {
          var k :| 0 <= k < |links| && links[k].postId == postId && tags[links[k].tagId] == n;
          if k < |init| {
            assert init[k] == links[k];
          }
        }
        forall n | n in before ensures n in LinkedNames(tags, links, postId) {
          var k :| 0 <= k < |init| && init[k].postId == postId && tags[init[k].tagId] == n;
          assert links[k] == init[k];
        }
        if last.postId == postId {
          assert links[|links| - 1] == last;
        }
      }
    }
  }

  /** With unique tag names and unique links, no name is printed twice. */
  lemma {:induction false} PluckedNamesDistinct(tags: seq<string>, links: seq<PostTag>, postId: Id)
    requires TablesValid(tags, links)
    ensures Distinct(PluckedNames(tags, links, postId))
    decreases |links|
  {
    if |links| > 0 {
      var init := links[..|links| - 1];
      var last := links[|links| - 1];
      assert TablesValid(tags, init) by {
        forall i, j | 0 <= i < j < |init| ensures init[i] != init[j] {
          assert init[i] == links[i] && init[j] == links[j];
        }
      }
      PluckedNamesDistinct(tags, init, postId);
      var before := PluckedNames(tags, init, postId);
      if last.postId == postId {
        var n := tags[last.tagId];
        PluckedNamesAreLinked(tags, init, postId);
        forall m | m in before ensures m != n {
          assert m in LinkedNames(tags, init, postId);
          var k :| 0 <= k < |init| && init[k].postId == postId && tags[init[k].tagId] == m;
          assert links[k] == init[k] && links[k] != links[|links| - 1];
        }
        assert PluckedNames(tags, links, postId) == before + [n];
        forall i, j | 0 <= i < j < |before| + 1 ensures (before + [n])[i] != (before + [n])[j] {
          if j == |before| {
            assert (before + [n])[i] == before[i] && before[i] in before;
          }
        }
      }
    }
  }

  /** `tag_names` read back through `tag_names=` on a new post gives the
      post's tag names, provided none of them holds a comma. */
  lemma TagNamesReadBack(t: Tables, postId: Id)
    requires TablesValid(t.tags, t.postTags)
    requires forall n :: n in PluckedNames(t.tags, t.postTags, postId) ==> ',' !in n
    ensures AssignTagNames([], TagNamesOf(t, Some(postId))) == PluckedNames(t.tags, t.postTags, postId)
  {
    var names := PluckedNames(t.tags, t.postTags, postId);
    PluckedNamesDistinct(t.tags, t.postTags, postId);
    PluckedNamesAreLinked(t.tags, t.postTags, postId);
    forall k | 0 <= k < |names| ensures IsCanonical(names[k]) {
      assert names[k] in LinkedNames(t.tags, t.postTags, postId);
    }
    TagNamesRoundTrip(names);
  }

  /** With exact caches both branches of `comments_count_value` agree:
      the cached column is the live count. */
  lemma CommentsCountValueExact(t: Tables, k: nat, hasCommentsCount: bool)
    requires k < |t.posts| && Accurate(t)
    ensures CommentsCountValue(t, k, hasCommentsCount) == CountComments(t.comments, t.posts[k].id)
  {
  }

  /** Without the alias, `average_rating_value` ignores the cached
      `rating_average` entirely: two tables that differ only in that column
      give the same value. */
  lemma AverageRatingValueIgnoresCache(t: Tables, k: nat, cached: Option<real>)
    requires k < |t.posts|
    ensures AverageRatingValue(t.(posts := t.posts[k := t.posts[k].(ratingAverage := cached)]), k, false, None)
      == AverageRatingValue(t, k, false, None)
  {
  }

  /** Without the alias, `average_rating_value` is the live average, NULL
      (`nil`) for a post with no ratings, within 1..5 otherwise; it agrees
      with the cached column whenever the cache is exact. */
  lemma AverageRatingValueIsLive(t: Tables, k: nat)
    requires k < |t.posts| && Valid(t)
    ensures AverageRatingValue(t, k, false, None) == Average(t.ratings, t.posts[k].id)
    ensures AverageRatingValue(t, k, false, None).None? <==> RatingCount(t.ratings, t.posts[k].id) == 0
    ensures AverageRatingValue(t, k, false, None).Some? ==>
      1.0 <= AverageRatingValue(t, k, false, None).value <= 5.0
    ensures Accurate(t) ==> AverageRatingValue(t, k, false, None) == t.posts[k].ratingAverage
  {
    AverageInRange(t.ratings, t.posts[k].id);
  }

  /** Once a post is destroyed nobody has read it (its read marks went with
      it), and every other post's readers are unchanged. */
  lemma ReadByAfterPostDestroyed(t: Tables, postId: Id, q: Id, user: Option<Id>)
    requires Valid(t)
    ensures !ReadBy(PostDestroyed(t, postId).0.readMarks, postId, user)
    ensures q != postId ==>
      ReadBy(PostDestroyed(t, postId).0.readMarks, q, user) == ReadBy(t.readMarks, q, user)
  {
    PostDestroyedLeavesNoTrace(t, postId);
    if FindPost(t.posts, postId).Some? {
      ReadMarksNotOnPostMembers(t.readMarks, postId);
    }
  }

  // ---------------------------------------------------------------------
  // What a save does to the tables

  lemma PersistedKeepsValid(t: Tables, p: Attributes)
    requires Valid(t) && p.topicId.Some? && p.userId.Some?
    requires p.id.Some? ==> p.id.value in PostIds(t.posts)
    ensures Valid(Persisted(t, p).0)
    ensures Accurate(t) ==> Accurate(Persisted(t, p).0)
    ensures Persisted(t, p).1 in PostIds(Persisted(t, p).0.posts)
    ensures Persisted(t, p).0.tags == t.tags && Persisted(t, p).0.postTags == t.postTags
  {
    match p.id
    case None =>
      PostInsertedKeepsValid(t, p.topicId.value, p.userId.value, p.title, p.body);
      if Accurate(t) {
        PostInsertedKeepsAccurate(t, p.topicId.value, p.userId.value, p.title, p.body);
      }
    case Some(id) =>
      PostUpdatedKeepsValid(t, id, p.title, p.body);
  }

  /** A save on valid tables, of a buffer of canonical names, by a record
      that is new or whose row still exists, keeps the tables valid and the
      caches exact. */
  lemma SavedKeepsValid(t: Tables, p: Attributes)
    requires Valid(t) && AllCanonical(p.pendingTagNames)
    requires p.id.Some? ==> p.id.value in PostIds(t.posts)
    ensures Valid(Saved(t, p).0)
    ensures Accurate(t) ==> Accurate(Saved(t, p).0)
  {
    if PostErrors(p.topicId, p.userId, p.title, p.body) == [] {
      var (t1, id) := Persisted(t, p);
      PersistedKeepsValid(t, p);
      TagsSyncedKeepsValid(t1, id, p.pendingTagNames);
    }
  }

  /** A post no link points at has no tag names. */
  lemma {:induction false} PluckedNamesUnlinked(tags: seq<string>, links: seq<PostTag>, postId: Id)
    requires forall k :: 0 <= k < |links| ==> links[k].tagId < |tags| && links[k].postId != postId
    ensures PluckedNames(tags, links, postId) == []
    decreases |links|
  {
    if |links| > 0 {
      PluckedNamesUnlinked(tags, links[..|links| - 1], postId);
    }
  }

  /** A post that was never saved has no tags yet: every link points at an
      existing post, whose id is below the next one. */
  lemma NewPostHasNoTags(t: Tables)
    requires Valid(t)
    ensures PluckedNames(t.tags, t.postTags, t.nextPostId) == []
  {
    forall k | 0 <= k < |t.postTags| ensures t.postTags[k].postId != t.nextPostId {
      var j :| 0 <= j < |t.posts| && t.posts[j].id == t.postTags[k].postId;
    }
    PluckedNamesUnlinked(t.tags, t.postTags, t.nextPostId);
  }

  /** After a successful save the post's tag names are the ones it had
      before plus every buffered name: the buffer adds tags and never
      removes one. A new post ends up with exactly the buffered names. */
  lemma SavedTagNames(t: Tables, p: Attributes)
    requires Valid(t) && AllCanonical(p.pendingTagNames)
    requires p.id.Some? ==> p.id.value in PostIds(t.posts)
    requires Saved(t, p).2.Success?
    ensures var (t', id) := (Saved(t, p).0, Saved(t, p).2.value);
      TablesValid(t'.tags, t'.postTags)
      && (set n | n in PluckedNames(t'.tags, t'.postTags, id))
         == (set n | n in PluckedNames(t.tags, t.postTags, id)) + (set n | n in p.pendingTagNames)
    ensures p.id.None? ==>
      (set n | n in PluckedNames(Saved(t, p).0.tags, Saved(t, p).0.postTags, Saved(t, p).2.value))
        == set n | n in p.pendingTagNames
  {
    var (t1, id) := Persisted(t, p);
    PersistedKeepsValid(t, p);
    SyncAddsNames(t1.tags, t1.postTags, id, p.pendingTagNames);
    var t' := Saved(t, p).0;
    assert t'.tags == Sync(t1.tags, t1.postTags, id, p.pendingTagNames).0;
    assert t'.postTags == Sync(t1.tags, t1.postTags, id, p.pendingTagNames).1;
    PluckedNamesAreLinked(t'.tags, t'.postTags, id);
    PluckedNamesAreLinked(t.tags, t.postTags, id);
    if p.id.None? {
      NewPostHasNoTags(t);
    }
  }

  // ---------------------------------------------------------------------
  // The object

  class Post {
    var id: Option<Id>
    var topicId: Option<Id>
    var userId: Option<Id>
    var title: string
    var body: string
    var pendingTagNames: seq<string>

    function State(): Attributes
      reads this
    {
      Attributes(id, topicId, userId, title, body, pendingTagNames)
    }

    /** `Post.new(topic:, user:, title:, body:)`. */
    constructor (topicId: Option<Id>, userId: Option<Id>, title: string, body: string)
      ensures State() == Attributes(None, topicId, userId, title, body, [])
    {
      this.id := None;
      this.topicId := topicId;
      this.userId := userId;
      this.title := title;
      this.body := body;
      this.pendingTagNames := [];
    }

    /** `tags_attributes=`: each entry's name, stripped and downcased, is
        appended unless blank; duplicates are kept. */
    method SetTagsAttributes(entries: seq<TagParams>)
      modifies this`pendingTagNames
      ensures pendingTagNames == old(pendingTagNames) + AttributeNames(entries)
    {
      ghost var start := pendingTagNames;
      var i := 0;
      while i < |entries|
        invariant 0 <= i <= |entries|
        invariant pendingTagNames == start + AttributeNames(entries[..i])
      {
        var name := Canonicalize(NameParam(entries[i]));
        AttributeNamesStep(start, entries, i);
        if !IsBlank(name) {
          pendingTagNames := pendingTagNames + [name];
        }
        i := i + 1;
      }
      assert entries[..i] == entries;
    }

    /** `tag_names=`: the comma-separated names are normalised, blanks
        dropped, and appended to the buffer without duplicates. */
    method SetTagNames(value: string)
      modifies this`pendingTagNames
      ensures pendingTagNames == AssignTagNames(old(pendingTagNames), value)
    {
      pendingTagNames := AssignTagNames(pendingTagNames, value);
    }

    /** `sync_pending_tags`: a blank buffer is left alone; otherwise each
        distinct name is found or created, each resolved tag the post was
        not linked to before gets a link (found or created), and the
        buffer is emptied. */
    method SyncPendingTags(db: Database)
      requires id.Some?
      modifies this`pendingTagNames, db`tags, db`postTags
      ensures (db.tags, db.postTags) == Sync(old(db.tags), old(db.postTags), id.value, old(pendingTagNames))
      ensures pendingTagNames == []
    {
      if pendingTagNames == [] {
        return;
      }
      var postId := id.value;
      var ids := ResolveTags(db, Dedup(pendingTagNames));
      var existing := db.TagIdsOfPost(postId);
      LinkTags(db, postId, existing, ids);
      pendingTagNames := [];
    }

    /** `names.map { |name| Tag.find_or_create_by(name: name) }`, one
        find-or-create after the other. */
    static method ResolveTags(db: Database, names: seq<string>) returns (ids: seq<Id>)
      modifies db`tags
      ensures (db.tags, ids) == ResolveAll(old(db.tags), names)
    {
      ids := [];
      var i := 0;
      while i < |names|
        invariant 0 <= i <= |names|
        invariant (db.tags, ids) == ResolveAll(old(db.tags), names[..i])
      {
        var tagId := db.FindOrCreateTag(names[i]);
        assert names[..i + 1][..i] == names[..i];
        ids := ids + [tagId];
        i := i + 1;
      }
      assert names[..i] == names;
    }

    /** The link loop: `PostTag.find_or_create_by` for each resolved id
        that `existing_tag_ids` (plucked before the loop) does not hold. */
    static method LinkTags(db: Database, postId: Id, existing: seq<Id>, ids: seq<Id>)
      requires forall t :: t in existing ==> PostTag(postId, t) in db.postTags
      modifies db`postTags
      ensures db.postTags == AddLinks(old(db.postTags), postId, existing, ids)
    {
      var j := 0;
      while j < |ids|
        invariant 0 <= j <= |ids|
        invariant db.postTags == AddLinks(old(db.postTags), postId, existing, ids[..j])
      {
        if ids[j] !in existing {
          db.FindOrCreatePostTag(postId, ids[j]);
        }
        assert ids[..j + 1][..j] == ids[..j];
        j := j + 1;
      }
      assert ids[..j] == ids;
    }

    /** `save`: on a validation failure nothing is written and the errors
        are returned; otherwise the row is inserted (a new record takes the
        next id) or updated, and the tag hook runs. */
    method Save(db: Database) returns (r: Result<Id, seq<ValidationError>>)
      modifies this`id, this`pendingTagNames, db`posts, db`nextPostId, db`tags, db`postTags
      ensures (db.Snapshot(), State(), r) == Saved(old(db.Snapshot()), old(State()))
    {
      var errs := PostErrors(topicId, userId, title, body);
      if errs != [] {
        return Failure(errs);
      }
      var postId;
      if id.None? {
        postId := db.InsertPost(topicId.value, userId.value, title, body);
      } else {
        postId := id.value;
        var _ := db.UpdatePost(postId, title, body);
      }
      id := Some(postId);
      SyncPendingTags(db);
      r := Success(postId);
    }
  }
}
