/** The persistent state behind the routers: users, posts and vote rows. */
module Store {
  import opened Outcomes
  import opened Schemas

  /** A stored account; `password` holds whatever the registration stored. */
  datatype User = User(id: int, email: string, password: string, createdAt: Timestamp)

  /** A stored post; `userId` is its owner. */
  datatype Post = Post(
    id: int, title: string, content: string, isPublished: bool,
    userId: int, createdAt: Timestamp)

  /** One row of the votes table: `userId` voted for `postId`. */
  datatype VoteRow = VoteRow(userId: int, postId: int)

  /** The whole database. Posts are kept in the order the database returns
      them when no ordering is requested. */
  datatype Db = Db(users: map<int, User>, posts: seq<Post>, votes: seq<VoteRow>)

  /** The result of a handler: the state after the call and the reply. */
  datatype Step<+T> = Step(state: Db, reply: Result<T>)

  ghost predicate UniqueIds(posts: seq<Post>) {
    forall i, j :: 0 <= i < j < |posts| ==> posts[i].id != posts[j].id
  }

  /** The integrity the database schema maintains: primary keys are unique,
      every user is stored under its own id, every post has an existing owner. */
  ghost predicate Valid(db: Db) {
    && UniqueIds(db.posts)
    && (forall k :: k in db.users ==> db.users[k].id == k)
    && (forall p :: p in db.posts ==> p.userId in db.users)
  }

  /** The posts kept by `keep`, in their original order. */
  function Select(posts: seq<Post>, keep: Post -> bool): (r: seq<Post>)
    ensures forall p :: p in r <==> p in posts && keep(p)
    ensures |r| <= |posts|
    ensures (forall p :: p in posts ==> keep(p)) ==> r == posts
    ensures (forall p :: p in posts ==> !keep(p)) ==> r == []
  {
    if posts == [] then []
    else
      var rest := Select(posts[1..], keep);
      assert forall p :: p in posts[1..] ==> p in posts;
      if keep(posts[0]) then [posts[0]] + rest else rest
  }

  /** Selection keeps primary keys unique. */
  lemma {:induction false} SelectKeepsUniqueIds(posts: seq<Post>, keep: Post -> bool)
    ensures UniqueIds(posts) ==> UniqueIds(Select(posts, keep))
  {
    if posts != [] && UniqueIds(posts) {
      var rest := Select(posts[1..], keep);
      SelectKeepsUniqueIds(posts[1..], keep);
      if keep(posts[0]) {
        forall k | 0 <= k < |rest|
          ensures rest[k].id != posts[0].id
        {
          assert rest[k] in posts[1..];
          var j :| 0 <= j < |posts[1..]| && posts[1..][j] == rest[k];
          assert posts[j + 1] == rest[k];
        }
      }
    }
  }

  /** Selection distributes over concatenation: everything it keeps from `a`
      comes before everything it keeps from `b`, so relative order is kept. */
  lemma {:induction false} SelectAppend(a: seq<Post>, b: seq<Post>, keep: Post -> bool)
    ensures Select(a + b, keep) == Select(a, keep) + Select(b, keep)
  {
    if a == [] {
      assert a + b == b;
    } else {
      assert (a + b)[0] == a[0];
      assert (a + b)[1..] == a[1..] + b;
      SelectAppend(a[1..], b, keep);
    }
  }

  /** A single post is kept exactly when `keep` accepts it. */
  lemma SelectSingle(p: Post, keep: Post -> bool)
    ensures Select([p], keep) == if keep(p) then [p] else []
  {
    assert [p][1..] == [];
  }

  /** A sequence is its prefix, the element at `k` and its suffix. */
  lemma SplitAt<T>(s: seq<T>, k: int)
    requires 0 <= k < |s|
    ensures s == s[..k] + ([s[k]] + s[k + 1..])
  {
  }

  /** Where ids are unique, no post at an index other than `k` has the id of `posts[k]`. */
  lemma OthersKept(posts: seq<Post>, k: int, part: seq<Post>, keep: Post -> bool)
    requires UniqueIds(posts) && 0 <= k < |posts|
    requires forall p :: keep(p) <==> p.id != posts[k].id
    requires part == posts[..k] || part == posts[k + 1..]
    ensures Select(part, keep) == part
  {
    forall p | p in part ensures keep(p) {
      var a :| 0 <= a < |part| && part[a] == p;
      assert posts[if part == posts[..k] then a else k + 1 + a] == p;
    }
  }

  /** Dropping the posts stored under the id of `posts[k]` removes exactly
      index `k` when ids are unique. */
  lemma SelectRemovesOne(posts: seq<Post>, k: int, keep: Post -> bool)
    requires UniqueIds(posts) && 0 <= k < |posts|
    requires forall p :: keep(p) <==> p.id != posts[k].id
    ensures Select(posts, keep) == posts[..k] + posts[k + 1..]
  {
    var pre, post := posts[..k], posts[k + 1..];
    var x := posts[k];
    SplitAt(posts, k);
    OthersKept(posts, k, pre, keep);
    OthersKept(posts, k, post, keep);
    calc {
      Select(posts, keep);
      Select(pre + ([x] + post), keep);
      { SelectAppend(pre, [x] + post, keep); }
      Select(pre, keep) + Select([x] + post, keep);
      { SelectAppend([x], post, keep); }
      Select(pre, keep) + (Select([x], keep) + Select(post, keep));
      { SelectSingle(x, keep); }
      pre + ([] + post);
      { assert [] + post == post; }
      pre + post;
    }
  }

  /** The post stored under `id`, if any (the `filter(id == id).first()` query). */
  function Find(posts: seq<Post>, id: int): (r: Option<Post>)
    ensures r.Some? ==> r.value in posts && r.value.id == id
    ensures r.None? <==> forall p :: p in posts ==> p.id != id
  {
    if posts == [] then None
    else if posts[0].id == id then Some(posts[0])
    else Find(posts[1..], id)
  }

  /** With unique ids, the post found under `id` is the only one with that id. */
  lemma FindUnique(posts: seq<Post>, p: Post)
    requires UniqueIds(posts) && p in posts
    ensures Find(posts, p.id) == Some(p)
  {
  }

  /** The public view of a stored user. */
  function UserView(u: User): (o: UserOut)
    ensures o.id == u.id && o.email == u.email && o.createdAt == u.createdAt
  {
    UserOut(u.id, u.email, u.createdAt)
  }

  /** The view of a user does not depend on the stored password. */
  lemma UserViewIgnoresPassword(u: User, other: string)
    ensures UserView(u.(password := other)) == UserView(u)
  {
  }

  /** A stored post as returned to clients, with its owner resolved. */
  function Respond(db: Db, p: Post): (r: PostResponse)
    requires p.userId in db.users
    ensures r.id == p.id && r.userId == p.userId && r.createdAt == p.createdAt
    ensures r.title == p.title && r.content == p.content && r.isPublished == p.isPublished
    ensures r.owner == UserView(db.users[p.userId])
  {
    PostResponse(p.title, p.content, p.isPublished, p.id, p.createdAt, p.userId,
                 UserView(db.users[p.userId]))
  }
}
