/** The `/posts` handlers (app/routers/post.py) as transitions over the store.
    `actor` is the id of the authenticated caller. */
module PostRouter {
  import opened Outcomes
  import opened Schemas
  import opened Store
  import opened Aggregation
  import opened Text
  import opened Paging

  /** The posts whose title contains `search` (the `title.contains(search)` filter). */
  function FilterByTitle(posts: seq<Post>, search: string): (r: seq<Post>)
    ensures forall p :: p in r <==> p in posts && Contains(p.title, search)
    ensures UniqueIds(posts) ==> UniqueIds(r)
  {
    var keep := (p: Post) => Contains(p.title, search);
    SelectKeepsUniqueIds(posts, keep);
    Select(posts, keep)
  }

  /** The title filter keeps relative order: what it keeps from `a` precedes
      what it keeps from `b`. */
  lemma FilterByTitleKeepsOrder(a: seq<Post>, b: seq<Post>, search: string)
    ensures FilterByTitle(a + b, search) == FilterByTitle(a, search) + FilterByTitle(b, search)
  {
    SelectAppend(a, b, (p: Post) => Contains(p.title, search));
  }

  /** The posts stored under `id` (the `id == id` filter). */
  function WithId(posts: seq<Post>, id: int): (r: seq<Post>)
    ensures forall p :: p in r <==> p in posts && p.id == id
    ensures UniqueIds(posts) ==> UniqueIds(r)
    ensures (forall p :: p in posts ==> p.id != id) ==> r == []
  {
    var keep := (p: Post) => p.id == id;
    SelectKeepsUniqueIds(posts, keep);
    Select(posts, keep)
  }

  /** Every post but the one stored under `id`, in order. */
  function WithoutId(posts: seq<Post>, id: int): (r: seq<Post>)
    ensures forall p :: p in r <==> p in posts && p.id != id
    ensures UniqueIds(posts) ==> UniqueIds(r)
    ensures UniqueIds(posts) ==>
              forall k :: 0 <= k < |posts| && posts[k].id == id ==> r == posts[..k] + posts[k + 1..]
  {
    var keep := (p: Post) => p.id != id;
    SelectKeepsUniqueIds(posts, keep);
    assert UniqueIds(posts) ==>
             forall k :: 0 <= k < |posts| && posts[k].id == id ==> Select(posts, keep) == posts[..k] + posts[k + 1..] by {
      if UniqueIds(posts) {
        forall k | 0 <= k < |posts| && posts[k].id == id
          ensures Select(posts, keep) == posts[..k] + posts[k + 1..]
        {
          SelectRemovesOne(posts, k, keep);
        }
      }
    }
    Select(posts, keep)
  }

  /** Counted posts rendered as response entries. */
  function Outs(db: Db, counted: seq<PostVotes>): (r: seq<PostOut>)
    requires forall i :: 0 <= i < |counted| ==> counted[i].post.userId in db.users
    ensures |r| == |counted|
    ensures forall i :: 0 <= i < |r| ==> r[i] == PostOut(Respond(db, counted[i].post), counted[i].votes)
  {
    seq(|counted|, i requires 0 <= i < |counted| => PostOut(Respond(db, counted[i].post), counted[i].votes))
  }

  /** The listing before pagination: the outer-join aggregate over the posts
      whose title contains `search`. */
  function Listing(db: Db, search: string): (r: seq<PostOut>)
    requires Valid(db)
    ensures |r| == |FilterByTitle(db.posts, search)|
    ensures forall i :: 0 <= i < |r| ==>
              var p := FilterByTitle(db.posts, search)[i];
              r[i] == PostOut(Respond(db, p), CountVotes(db.votes, p.id))
  {
    var filtered := FilterByTitle(db.posts, search);
    AggregateCountsEveryPost(filtered, db.votes);
    Outs(db, Aggregate(filtered, db.votes))
  }

  /** GET /posts: the page of the listing that starts at `skip` and holds at
      most `limit` entries. Any authenticated caller sees the same listing. */
  function GetPosts(db: Db, actor: int, limit: nat, skip: nat, search: string): (r: seq<PostOut>)
    requires Valid(db)
    ensures |r| <= limit
    ensures skip < |Listing(db, search)| ==> |r| == Min(limit, |Listing(db, search)| - skip)
    ensures skip >= |Listing(db, search)| ==> r == []
    ensures forall i :: 0 <= i < |r| ==>
              skip + i < |Listing(db, search)| && r[i] == Listing(db, search)[skip + i]
  {
    Paginate(Listing(db, search), limit, skip)
  }

  /** The query defaults of GET /posts: ten entries from the start. */
  const DefaultLimit: nat := 10
  const DefaultSkip: nat := 0

  /** GET /posts with no query parameters returns the first ten stored posts
      (or all of them when there are fewer), in storage order, with their
      vote counts. */
  lemma DefaultPage(db: Db, actor: int)
    requires Valid(db)
    ensures |GetPosts(db, actor, DefaultLimit, DefaultSkip, "")| == Min(10, |db.posts|)
    ensures forall i :: 0 <= i < |GetPosts(db, actor, DefaultLimit, DefaultSkip, "")| ==>
              GetPosts(db, actor, DefaultLimit, DefaultSkip, "")[i]
              == PostOut(Respond(db, db.posts[i]), CountVotes(db.votes, db.posts[i].id))
  {
  }

  /** Every stored post whose title contains `search` is listed exactly once,
      with its own vote count. */
  lemma ListedExactlyOnce(db: Db, search: string, p: Post)
    requires Valid(db) && p in db.posts && Contains(p.title, search)
    ensures exists i :: 0 <= i < |Listing(db, search)| &&
              Listing(db, search)[i] == PostOut(Respond(db, p), CountVotes(db.votes, p.id))
    ensures forall i, j ::
              (0 <= i < |Listing(db, search)| && 0 <= j < |Listing(db, search)| &&
               Listing(db, search)[i].post.id == p.id && Listing(db, search)[j].post.id == p.id) ==> i == j
  {
    var f := FilterByTitle(db.posts, search);
    var k :| 0 <= k < |f| && f[k] == p;
    assert Listing(db, search)[k] == PostOut(Respond(db, p), CountVotes(db.votes, p.id));
  }

  /** Every listed entry is a stored post whose title contains `search`,
      paired with its vote count. */
  lemma ListedOnlyIfMatching(db: Db, search: string, i: int)
    requires Valid(db) && 0 <= i < |Listing(db, search)|
    ensures exists p :: p in db.posts && Contains(p.title, search) &&
              Listing(db, search)[i] == PostOut(Respond(db, p), CountVotes(db.votes, p.id))
  {
  }

  /** A stored post appears in the listing if and only if its title contains `search`. */
  lemma ListedIffMatching(db: Db, search: string, p: Post)
    requires Valid(db) && p in db.posts
    ensures (exists i :: 0 <= i < |Listing(db, search)| && Listing(db, search)[i].post.id == p.id)
            <==> Contains(p.title, search)
  {
    if Contains(p.title, search) {
      ListedExactlyOnce(db, search, p);
    } else {
      forall i | 0 <= i < |Listing(db, search)|
        ensures Listing(db, search)[i].post.id != p.id
      {
        var f := FilterByTitle(db.posts, search);
        assert f[i] in f;
        var a :| 0 <= a < |db.posts| && db.posts[a] == f[i];
        var b :| 0 <= b < |db.posts| && db.posts[b] == p;
        assert a != b;
      }
    }
  }

  /** With the default empty search every stored post is listed, in storage order. */
  lemma EmptySearchListsAll(db: Db)
    requires Valid(db)
    ensures |Listing(db, "")| == |db.posts|
    ensures forall i :: 0 <= i < |db.posts| ==>
              Listing(db, "")[i] == PostOut(Respond(db, db.posts[i]), CountVotes(db.votes, db.posts[i].id))
  {
    forall p | p in db.posts
      ensures Contains(p.title, "")
    {
      EmptyMatchesAll(p.title);
    }
    assert FilterByTitle(db.posts, "") == db.posts;
  }

  /** GET /posts/{id}: the post and its vote count, or NotFound. There is no
      ownership check, so the caller does not affect the answer. */
  function GetPost(db: Db, actor: int, id: int): (r: Result<PostOut>)
    requires Valid(db)
    ensures r == Err(NotFound) <==> forall p :: p in db.posts ==> p.id != id
    ensures forall p :: p in db.posts && p.id == id ==>
              r == Ok(PostOut(Respond(db, p), CountVotes(db.votes, id)))
  {
    var matching := WithId(db.posts, id);
    AggregateCountsEveryPost(matching, db.votes);
    var counted := Aggregate(matching, db.votes);
    if |counted| == 0 then Err(NotFound)
    else
      assert matching[0] in matching;
      assert forall p :: p in db.posts && p.id == id ==> p == matching[0] by {
        forall p | p in db.posts && p.id == id
          ensures p == matching[0]
        {
          FindUnique(db.posts, p);
          FindUnique(db.posts, matching[0]);
        }
      }
      Ok(PostOut(Respond(db, counted[0].post), counted[0].votes))
  }

  /** A post with no vote rows is reported with 0 votes rather than omitted. */
  lemma GetPostUnvotedIsZero(db: Db, actor: int, p: Post)
    requires Valid(db) && p in db.posts
    requires forall v :: v in db.votes ==> v.postId != p.id
    ensures GetPost(db, actor, p.id) == Ok(PostOut(Respond(db, p), 0))
  {
  }

  /** DELETE /posts/{id}: NotFound for a missing post, then Forbidden for a
      post the caller does not own; otherwise the post is removed. */
  function DeletePost(db: Db, actor: int, id: int): (s: Step<()>)
    requires Valid(db)
    ensures s.reply == Err(NotFound) <==> forall p :: p in db.posts ==> p.id != id
    ensures s.reply == Err(Forbidden) <==> exists p :: p in db.posts && p.id == id && p.userId != actor
    ensures s.reply.Ok? <==> exists p :: p in db.posts && p.id == id && p.userId == actor
    ensures s.reply.Err? ==> s.state == db
    ensures s.reply.Ok? ==> forall p :: p in s.state.posts <==> p in db.posts && p.id != id
    ensures s.reply.Ok? ==>
              exists k :: 0 <= k < |db.posts| && db.posts[k].id == id &&
                          s.state.posts == db.posts[..k] + db.posts[k + 1..]
    ensures s.state.users == db.users && s.state.votes == db.votes
    ensures Valid(s.state)
  {
    match Find(db.posts, id)
    case None => Step(db, Err(NotFound))
    case Some(p) =>
      FindUnique(db.posts, p);
      assert forall q :: q in db.posts && q.id == id ==> q == p by {
        forall q | q in db.posts && q.id == id ensures q == p { FindUnique(db.posts, q); }
      }
      if p.userId != actor then Step(db, Err(Forbidden))
      else Step(db.(posts := WithoutId(db.posts, id)), Ok(()))
  }

  /** The post `p` with the editable fields taken from the payload. The
      payload has no owner, id or timestamp, so those are kept. */
  function ApplyUpdate(p: Post, u: PostUpdate): (q: Post)
    ensures q.id == p.id && q.userId == p.userId && q.createdAt == p.createdAt
    ensures q.title == u.title && q.content == u.content && q.isPublished == u.isPublished
  {
    p.(title := u.title, content := u.content, isPublished := u.isPublished)
  }

  /** The posts with the one stored under `updated.id` replaced by `updated`. */
  function ReplacePost(posts: seq<Post>, updated: Post): (r: seq<Post>)
    ensures |r| == |posts|
    ensures forall i :: 0 <= i < |r| ==> r[i] == if posts[i].id == updated.id then updated else posts[i]
  {
    seq(|posts|, i requires 0 <= i < |posts| => if posts[i].id == updated.id then updated else posts[i])
  }

  /** PUT /posts/{id}: NotFound, then Forbidden, as for deletion; otherwise
      only the title, content and published flag of that post change. */
  function UpdatePost(db: Db, actor: int, id: int, payload: PostUpdate): (s: Step<PostResponse>)
    requires Valid(db)
    ensures s.reply == Err(NotFound) <==> forall p :: p in db.posts ==> p.id != id
    ensures s.reply == Err(Forbidden) <==> exists p :: p in db.posts && p.id == id && p.userId != actor
    ensures s.reply.Ok? <==> exists p :: p in db.posts && p.id == id && p.userId == actor
    ensures s.reply.Err? ==> s.state == db
    ensures s.state.users == db.users && s.state.votes == db.votes
    ensures |s.state.posts| == |db.posts|
    ensures forall i :: 0 <= i < |db.posts| ==>
              var before, after := db.posts[i], s.state.posts[i];
              && after.id == before.id && after.userId == before.userId
              && after.createdAt == before.createdAt
              && (before.id != id ==> after == before)
    ensures s.reply.Ok? ==> forall i :: 0 <= i < |db.posts| && db.posts[i].id == id ==>
              var after := s.state.posts[i];
              && db.posts[i].userId == actor
              && after.title == payload.title && after.content == payload.content
              && after.isPublished == payload.isPublished
              && s.reply.value == Respond(s.state, after)
    ensures Valid(s.state)
  {
    match Find(db.posts, id)
    case None => Step(db, Err(NotFound))
    case Some(p) =>
      assert forall q :: q in db.posts && q.id == id ==> q == p by {
        forall q | q in db.posts && q.id == id ensures q == p { FindUnique(db.posts, q); }
      }
      if p.userId != actor then Step(db, Err(Forbidden))
      else
        var updated := ApplyUpdate(p, payload);
        var db' := db.(posts := ReplacePost(db.posts, updated));
        assert forall q :: q in db'.posts ==> q.userId in db'.users by {
          forall q | q in db'.posts ensures q.userId in db'.users {
            var k :| 0 <= k < |db'.posts| && db'.posts[k] == q;
            assert db.posts[k] in db.posts;
          }
        }
        Step(db', Ok(Respond(db', updated)))
  }

  /** An update body that omits `is_published` publishes the post, whatever
      its previous state: the payload's default overwrites the stored flag. */
  lemma UpdateWithoutFlagPublishes(db: Db, actor: int, id: int, title: string, content: string, i: int)
    requires Valid(db) && 0 <= i < |db.posts| && db.posts[i].id == id
    requires UpdatePost(db, actor, id, ParsePostBase(title, content, None)).reply.Ok?
    ensures UpdatePost(db, actor, id, ParsePostBase(title, content, None)).state.posts[i].isPublished
  {
  }

  /** POST /posts: appends one post owned by the caller, built from the
      payload, under the fresh id and timestamp the database assigns. */
  function CreatePost(db: Db, actor: int, payload: PostCreate, newId: int, createdAt: Timestamp)
    : (s: Step<PostResponse>)
    requires Valid(db) && actor in db.users
    requires forall p :: p in db.posts ==> p.id != newId
    ensures s.state.users == db.users && s.state.votes == db.votes
    ensures |s.state.posts| == |db.posts| + 1
    ensures s.state.posts[..|db.posts|] == db.posts
    ensures var created := s.state.posts[|db.posts|];
            && created.id == newId && created.userId == actor && created.createdAt == createdAt
            && created.title == payload.title && created.content == payload.content
            && created.isPublished == payload.isPublished
            && s.reply == Ok(Respond(s.state, created))
    ensures s.reply.Ok? && s.reply.value.owner == UserView(db.users[actor])
    ensures Valid(s.state)
  {
    var created := Post(newId, payload.title, payload.content, payload.isPublished, actor, createdAt);
    var db' := db.(posts := db.posts + [created]);
    Step(db', Ok(Respond(db', created)))
  }
}
