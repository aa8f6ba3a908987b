/** What `sync_pending_tags` does to the tags and post_tags tables, as
    functions of the tables before it runs: every distinct buffered name is
    resolved with find-or-create, and a post_tags row is added for each
    resolved tag the post does not have yet. A tag's id is its position in
    the tags table. */
module TagSync {
  import opened Wrappers
  import opened Text
  import opened TagNames
  import opened Schema

  /** `Tag.find_by(name: name)`: the first tag of that name. */
  function IndexOf(tags: seq<string>, name: string): (r: Option<Id>)
    ensures r.Some? ==> r.value < |tags| && tags[r.value] == name && name !in tags[..r.value]
    ensures r.None? <==> name !in tags
    decreases |tags|
  {
    if |tags| == 0 then None
    else if tags[0] == name then Some(0)
    else
      match IndexOf(tags[1..], name)
      case None => None
      case Some(j) =>
        assert tags[1..][..j] == tags[1..j + 1];
        Some(j + 1)
  }

  /** `Tag.find_or_create_by(name: name)`: the tag is reused when it exists
      and appended otherwise. */
  function FindOrCreate(tags: seq<string>, name: string): (r: (seq<string>, Id))
    ensures r.1 < |r.0| && r.0[r.1] == name
    ensures r.0 == if name in tags then tags else tags + [name]
  {
    match IndexOf(tags, name)
    case Some(i) => (tags, i)
    case None => (tags + [name], |tags|)
  }

  /** `names.map { |name| Tag.find_or_create_by(name: name) }`. */
  function ResolveAll(tags: seq<string>, names: seq<string>): (r: (seq<string>, seq<Id>))
    ensures |r.1| == |names|
    ensures tags <= r.0
    decreases |names|
  {
    if |names| == 0 then (tags, [])
    else
      var init := names[..|names| - 1];
      var last := names[|names| - 1];
      var (t, ids) := ResolveAll(tags, init);
      var (t2, id) := FindOrCreate(t, last);
      (t2, ids + [id])
  }

  /** `ids[k]` is the id of a tag named `names[k]`. */
  predicate Resolves(t: seq<string>, names: seq<string>, ids: seq<Id>) {
    |ids| == |names| && forall k :: 0 <= k < |names| ==> ids[k] < |t| && t[ids[k]] == names[k]
  }

  /** Each name is resolved to a tag of that name, and the table afterwards
      holds exactly the old names and the resolved ones. */
  lemma {:induction false} ResolveAllSpec(tags: seq<string>, names: seq<string>)
    ensures Resolves(ResolveAll(tags, names).0, names, ResolveAll(tags, names).1)
    ensures forall x :: x in ResolveAll(tags, names).0 <==> x in tags || x in names
    decreases |names|
  {
    if |names| > 0 {
      var init := names[..|names| - 1];
      var last := names[|names| - 1];
      ResolveAllSpec(tags, init);
      var (t, ids) := ResolveAll(tags, init);
      var (t2, id) := FindOrCreate(t, last);
      assert ResolveAll(tags, names) == (t2, ids + [id]);
      FrontLast(names);
      forall k | 0 <= k < |names| ensures (ids + [id])[k] < |t2| && t2[(ids + [id])[k]] == names[k] {
        if k < |init| {
          assert (ids + [id])[k] == ids[k];
          assert t2[ids[k]] == t[ids[k]];
        }
      }
    }
  }

  /** Resolution never duplicates a tag name, and every tag name it stores
      is canonical when the names it is given are. */
  lemma {:induction false} ResolveAllKeepsTagsValid(tags: seq<string>, names: seq<string>)
    requires Distinct(tags)
    ensures Distinct(ResolveAll(tags, names).0)
    ensures (forall k :: 0 <= k < |tags| ==> IsCanonical(tags[k]))
         && (forall k :: 0 <= k < |names| ==> IsCanonical(names[k]))
         ==> forall k :: 0 <= k < |ResolveAll(tags, names).0| ==> IsCanonical(ResolveAll(tags, names).0[k])
    decreases |names|
  {
    if |names| > 0 {
      var init := names[..|names| - 1];
      ResolveAllKeepsTagsValid(tags, init);
      var t := ResolveAll(tags, init).0;
      var t2 := ResolveAll(tags, names).0;
      if (forall k :: 0 <= k < |tags| ==> IsCanonical(tags[k]))
         && (forall k :: 0 <= k < |names| ==> IsCanonical(names[k])) {
        forall k | 0 <= k < |t2| ensures IsCanonical(t2[k]) {
          if k < |t| {
            assert t2[k] == t[k];
            assert forall j :: 0 <= j < |init| ==> IsCanonical(init[j]) by {
              forall j | 0 <= j < |init| ensures IsCanonical(init[j]) { assert init[j] == names[j]; }
            }
          } else {
            assert t2[k] == names[|names| - 1];
          }
        }
      }
    }
  }

  /** Names that all exist already are resolved without creating any tag. */
  lemma {:induction false} ResolveAllReusesExisting(tags: seq<string>, names: seq<string>)
    requires forall k :: 0 <= k < |names| ==> names[k] in tags
    ensures ResolveAll(tags, names).0 == tags
    decreases |names|
  {
    if |names| > 0 {
      ResolveAllReusesExisting(tags, names[..|names| - 1]);
    }
  }

  /** `tags.pluck(:id)`: the ids of the post's tags, in link order. */
  function TagIdsOf(links: seq<PostTag>, postId: Id): (r: seq<Id>)
    ensures forall t :: t in r <==> PostTag(postId, t) in links
    decreases |links|
  {
    if |links| == 0 then []
    else
      var init := links[..|links| - 1];
      var last := links[|links| - 1];
      assert links == init + [last];
      TagIdsOf(init, postId) + (if last.postId == postId then [last.tagId] else [])
  }

  /** `PostTag.find_or_create_by(post_id:, tag_id:)`. */
  function FindOrCreateLink(links: seq<PostTag>, link: PostTag): (r: seq<PostTag>)
    ensures r == if link in links then links else links + [link]
  {
    if link in links then links else links + [link]
  }

  /** The link loop of `sync_pending_tags`: for each resolved tag id, unless
      the ids plucked before the loop include it, find-or-create its link. */
  function AddLinks(links: seq<PostTag>, postId: Id, existing: seq<Id>, ids: seq<Id>): (r: seq<PostTag>)
    requires forall t :: t in existing ==> PostTag(postId, t) in links
    ensures links <= r
    ensures forall k :: |links| <= k < |r| ==> r[k].postId == postId && r[k].tagId in ids
    ensures forall x :: x in r <==> x in links || (x.postId == postId && x.tagId in ids)
    ensures Distinct(links) ==> Distinct(r)
    decreases |ids|
  {
    if |ids| == 0 then links
    else
      var initIds := ids[..|ids| - 1];
      var id := ids[|ids| - 1];
      var before := AddLinks(links, postId, existing, initIds);
      assert ids == initIds + [id];
      if id in existing then before
      else FindOrCreateLink(before, PostTag(postId, id))
  }

  /** Links appended for one post do not change any other post's tags. */
  lemma {:induction false} TagIdsOfOtherPost(links: seq<PostTag>, extra: seq<PostTag>, postId: Id, other: Id)
    requires other != postId
    requires forall k :: 0 <= k < |extra| ==> extra[k].postId == postId
    ensures TagIdsOf(links + extra, other) == TagIdsOf(links, other)
    decreases |extra|
  {
    if |extra| == 0 {
      assert links + extra == links;
    } else {
      var init := extra[..|extra| - 1];
      TagIdsOfOtherPost(links, init, postId, other);
      assert (links + extra)[..|links + extra| - 1] == links + init;
    }
  }

  /** The whole hook, as a function of the tables and the buffer: a blank
      buffer changes nothing; otherwise the distinct names are resolved and
      the missing links are added. */
  function Sync(tags: seq<string>, links: seq<PostTag>, postId: Id, pending: seq<string>): (seq<string>, seq<PostTag>) {
    if pending == [] then (tags, links)
    else
      var (t, ids) := ResolveAll(tags, Dedup(pending));
      (t, AddLinks(links, postId, TagIdsOf(links, postId), ids))
  }

  /** The tables the hook runs on: tag names unique and canonical, links
      unique and pointing at existing tags. */
  predicate TablesValid(tags: seq<string>, links: seq<PostTag>) {
    && Distinct(tags)
    && (forall k :: 0 <= k < |tags| ==> IsCanonical(tags[k]))
    && Distinct(links)
    && (forall k :: 0 <= k < |links| ==> links[k].tagId < |tags|)
  }

  /** The name of the tag a link points at. */
  function LinkedNames(tags: seq<string>, links: seq<PostTag>, postId: Id): set<string>
    requires forall k :: 0 <= k < |links| ==> links[k].tagId < |tags|
  {
    set k | 0 <= k < |links| && links[k].postId == postId :: tags[links[k].tagId]
  }

  /** The hook keeps the tables valid, and tags and links only grow: it
      never removes a tag or a link. */
  lemma SyncKeepsTablesValid(tags: seq<string>, links: seq<PostTag>, postId: Id, pending: seq<string>)
    requires TablesValid(tags, links)
    requires forall k :: 0 <= k < |pending| ==> IsCanonical(pending[k])
    ensures TablesValid(Sync(tags, links, postId, pending).0, Sync(tags, links, postId, pending).1)
    ensures tags <= Sync(tags, links, postId, pending).0
    ensures links <= Sync(tags, links, postId, pending).1
  {
    if pending != [] {
      var names := Dedup(pending);
      var (t, ids) := ResolveAll(tags, names);
      var l := AddLinks(links, postId, TagIdsOf(links, postId), ids);
      assert Sync(tags, links, postId, pending) == (t, l);
      forall k | 0 <= k < |names| ensures IsCanonical(names[k]) {
        assert names[k] in pending;
      }
      ResolveAllKeepsTagsValid(tags, names);
      ResolvedIdsInRange(tags, names);
      AddLinksInRange(links, postId, TagIdsOf(links, postId), ids, |t|);
    }
  }

  /** Every id resolution returns is the index of a stored tag. */
  lemma ResolvedIdsInRange(tags: seq<string>, names: seq<string>)
    ensures forall id :: id in ResolveAll(tags, names).1 ==> id < |ResolveAll(tags, names).0|
  {
    var (t, ids) := ResolveAll(tags, names);
    ResolveAllSpec(tags, names);
    forall id | id in ids ensures id < |t| {
      var j :| 0 <= j < |ids| && ids[j] == id;
    }
  }

  /** Added links point at existing tags when the resolved ids do. */
  lemma AddLinksInRange(links: seq<PostTag>, postId: Id, existing: seq<Id>, ids: seq<Id>, size: nat)
    requires forall t :: t in existing ==> PostTag(postId, t) in links
    requires forall k :: 0 <= k < |links| ==> links[k].tagId < size
    requires forall id :: id in ids ==> id < size
    ensures forall k :: 0 <= k < |AddLinks(links, postId, existing, ids)| ==> AddLinks(links, postId, existing, ids)[k].tagId < size
  {
  }

  /** After the hook every buffered name has exactly one tag (tag names are
      unique), and that tag is linked to the post. */
  lemma SyncLinksEveryName(tags: seq<string>, links: seq<PostTag>, postId: Id, pending: seq<string>, n: string)
    requires TablesValid(tags, links)
    requires forall k :: 0 <= k < |pending| ==> IsCanonical(pending[k])
    requires n in pending
    ensures var (t, l) := Sync(tags, links, postId, pending);
      n in t && PostTag(postId, IndexOf(t, n).value) in l
  {
    var names := Dedup(pending);
    var (t, ids) := ResolveAll(tags, names);
    var l := AddLinks(links, postId, TagIdsOf(links, postId), ids);
    assert Sync(tags, links, postId, pending) == (t, l);
    SyncKeepsTablesValid(tags, links, postId, pending);
    ResolveAllSpec(tags, names);
    var j :| 0 <= j < |names| && names[j] == n;
    ResolvedIdIsIndex(t, names, ids, j);
  }

  /** The hook is additive: the post's tag names afterwards are its old ones
      plus the buffered ones. */
  lemma SyncAddsNames(tags: seq<string>, links: seq<PostTag>, postId: Id, pending: seq<string>)
    requires TablesValid(tags, links)
    requires forall k :: 0 <= k < |pending| ==> IsCanonical(pending[k])
    ensures var (t, l) := Sync(tags, links, postId, pending);
      TablesValid(t, l)
      && LinkedNames(t, l, postId) == LinkedNames(tags, links, postId) + set n | n in pending
  {
    SyncKeepsTablesValid(tags, links, postId, pending);
    if pending != [] {
      var names := Dedup(pending);
      var (t, ids) := ResolveAll(tags, names);
      var l := AddLinks(links, postId, TagIdsOf(links, postId), ids);
      assert Sync(tags, links, postId, pending) == (t, l);
      ResolveAllSpec(tags, names);
      LinkedNamesGrow(tags, links, t, l, postId, pending, ids, names);
    } else {
      assert (set n | n in pending) == {};
    }
  }

  /** The hook touches only this post's links. */
  lemma SyncLeavesOtherPosts(tags: seq<string>, links: seq<PostTag>, postId: Id, pending: seq<string>, q: Id)
    requires q != postId
    requires forall t :: t in TagIdsOf(links, postId) ==> PostTag(postId, t) in links
    ensures TagIdsOf(Sync(tags, links, postId, pending).1, q) == TagIdsOf(links, q)
  {
    if pending != [] {
      var l := Sync(tags, links, postId, pending).1;
      TagIdsOfOtherPost(links, l[|links|..], postId, q);
      assert l == links + l[|links|..];
    }
  }

  /** In a table with unique names, the id resolved for a name is its index. */
  lemma ResolvedIdIsIndex(t: seq<string>, names: seq<string>, ids: seq<Id>, j: nat)
    requires Distinct(t) && j < |names| && Resolves(t, names, ids)
    ensures IndexOf(t, names[j]) == Some(ids[j])
  {
    var i := IndexOf(t, names[j]).value;
    assert t[i] == t[ids[j]];
  }

  lemma LinkedNamesGrow(tags: seq<string>, links: seq<PostTag>, t: seq<string>, l: seq<PostTag>,
                        postId: Id, pending: seq<string>, ids: seq<Id>, names: seq<string>)
    requires TablesValid(tags, links) && TablesValid(t, l)
    requires tags <= t && links <= l
    requires names == Dedup(pending) && Resolves(t, names, ids)
    requires forall x :: x in l <==> x in links || (x.postId == postId && x.tagId in ids)
    ensures LinkedNames(t, l, postId) == LinkedNames(tags, links, postId) + set n | n in pending
  {
    forall n | n in LinkedNames(t, l, postId)
      ensures n in LinkedNames(tags, links, postId) || n in pending
    {
      var k :| 0 <= k < |l| && l[k].postId == postId && t[l[k].tagId] == n;
      if l[k] in links {
        var j :| 0 <= j < |links| && links[j] == l[k];
        assert tags[links[j].tagId] == n;
      } else {
        var j :| 0 <= j < |ids| && ids[j] == l[k].tagId;
        assert names[j] in pending;
      }
    }
    forall n | n in LinkedNames(tags, links, postId)
      ensures n in LinkedNames(t, l, postId)
    {
      var k :| 0 <= k < |links| && links[k].postId == postId && tags[links[k].tagId] == n;
      assert l[k] == links[k];
    }
    forall n | n in pending
      ensures n in LinkedNames(t, l, postId)
    {
      var j :| 0 <= j < |names| && names[j] == n;
      var x := PostTag(postId, ids[j]);
      assert x in l;
      var k :| 0 <= k < |l| && l[k] == x;
    }
  }

  /** Syncing the same names again changes neither table: the hook is
      idempotent, so a post never gets two links to one tag. */
  lemma SyncTwiceIsNoOp(tags: seq<string>, links: seq<PostTag>, postId: Id, pending: seq<string>)
    requires TablesValid(tags, links)
    requires forall k :: 0 <= k < |pending| ==> IsCanonical(pending[k])
    ensures var (t, l) := Sync(tags, links, postId, pending);
            Sync(t, l, postId, pending) == (t, l)
  {
    var (t, l) := Sync(tags, links, postId, pending);
    SyncKeepsTablesValid(tags, links, postId, pending);
    if pending != [] {
      var names := Dedup(pending);
      ResolveAllSpec(tags, names);
      assert t == ResolveAll(tags, names).0;
      ResolveAllReusesExisting(t, names);
      ResolveAllSpec(t, names);
      var ids := ResolveAll(t, names).1;
      forall j | 0 <= j < |ids| ensures PostTag(postId, ids[j]) in l {
        SyncLinksResolved(tags, links, postId, pending, ids, j);
      }
      AddLinksAllPresent(l, postId, TagIdsOf(l, postId), ids);
    }
  }

  /** Re-resolving a buffered name in the synced table finds a linked tag. */
  lemma SyncLinksResolved(tags: seq<string>, links: seq<PostTag>, postId: Id, pending: seq<string>, ids: seq<Id>, j: nat)
    requires TablesValid(tags, links)
    requires forall k :: 0 <= k < |pending| ==> IsCanonical(pending[k])
    requires pending != []
    requires Resolves(Sync(tags, links, postId, pending).0, Dedup(pending), ids) && j < |ids|
    ensures PostTag(postId, ids[j]) in Sync(tags, links, postId, pending).1
  {
    var names := Dedup(pending);
    var (t, l) := Sync(tags, links, postId, pending);
    assert names[j] in pending;
    SyncLinksEveryName(tags, links, postId, pending, names[j]);
    SyncKeepsTablesValid(tags, links, postId, pending);
    ResolvedIdIsIndex(t, names, ids, j);
  }

  /** When every id is linked already, the link loop adds nothing. */
  lemma {:induction false} AddLinksAllPresent(links: seq<PostTag>, postId: Id, existing: seq<Id>, ids: seq<Id>)
    requires forall t :: t in existing ==> PostTag(postId, t) in links
    requires forall j :: 0 <= j < |ids| ==> PostTag(postId, ids[j]) in links
    ensures AddLinks(links, postId, existing, ids) == links
    decreases |ids|
  {
    if |ids| > 0 {
      AddLinksAllPresent(links, postId, existing, ids[..|ids| - 1]);
    }
  }
}
