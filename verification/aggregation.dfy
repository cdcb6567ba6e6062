/** The vote-count query: posts LEFT OUTER JOIN votes ON votes.post_id = posts.id,
    GROUP BY posts.id, with COUNT(votes.post_id) per group. */
module Aggregation {
  import opened Outcomes
  import opened Store

  /** The vote rows for one post. */
  function VotesFor(votes: seq<VoteRow>, postId: int): (r: seq<VoteRow>)
    ensures forall v :: v in r <==> v in votes && v.postId == postId
    ensures |r| <= |votes|
    ensures (forall v :: v in votes ==> v.postId != postId) ==> r == []
  {
    if votes == [] then []
    else if votes[0].postId == postId then [votes[0]] + VotesFor(votes[1..], postId)
    else VotesFor(votes[1..], postId)
  }

  /** The reference count: how many vote rows name the post. */
  function CountVotes(votes: seq<VoteRow>, postId: int): nat {
    |VotesFor(votes, postId)|
  }

  /** One row of the joined relation; the vote side is NULL when the post
      matched no vote row. */
  datatype JoinRow = JoinRow(post: Post, vote: Option<VoteRow>)

  /** A post paired with each of the given vote rows. */
  function Pair(p: Post, matches: seq<VoteRow>): (r: seq<JoinRow>)
    ensures |r| == |matches|
    ensures forall i :: 0 <= i < |r| ==> r[i] == JoinRow(p, Some(matches[i]))
  {
    seq(|matches|, i requires 0 <= i < |matches| => JoinRow(p, Some(matches[i])))
  }

  /** The joined rows contributed by one post: one per matching vote, or a
      single row with a NULL vote when nothing matches. */
  function JoinOne(p: Post, votes: seq<VoteRow>): seq<JoinRow> {
    var matches := VotesFor(votes, p.id);
    if matches == [] then [JoinRow(p, None)] else Pair(p, matches)
  }

  /** The left outer join of the posts with the vote rows. */
  function OuterJoin(posts: seq<Post>, votes: seq<VoteRow>): seq<JoinRow> {
    if posts == [] then [] else JoinOne(posts[0], votes) + OuterJoin(posts[1..], votes)
  }

  /** COUNT(votes.post_id) over the group of `postId`: NULL vote sides are not counted. */
  function CountNonNull(rows: seq<JoinRow>, postId: int): nat {
    if rows == [] then 0
    else (if rows[0].post.id == postId && rows[0].vote.Some? then 1 else 0)
         + CountNonNull(rows[1..], postId)
  }

  /** The group keys of the joined rows: each post once, in order of first
      appearance, skipping ids already in `seen`. */
  function GroupKeys(rows: seq<JoinRow>, seen: set<int>): seq<Post> {
    if rows == [] then []
    else if rows[0].post.id in seen then GroupKeys(rows[1..], seen)
    else [rows[0].post] + GroupKeys(rows[1..], seen + {rows[0].post.id})
  }

  /** A post together with the number of votes it received. */
  datatype PostVotes = PostVotes(post: Post, votes: nat)

  /** The posts that occur in some joined row. */
  ghost function PostsOf(rows: seq<JoinRow>): set<Post> {
    set row | row in rows :: row.post
  }

  /** The ids of the given posts. */
  ghost function IdsOf(posts: seq<Post>): set<int> {
    set p | p in posts :: p.id
  }

  /** The grouped and counted result of the join: each group once, no post
      lost, nothing but the given posts. */
  function Aggregate(posts: seq<Post>, votes: seq<VoteRow>): (r: seq<PostVotes>)
    ensures forall i, j :: 0 <= i < j < |r| ==> r[i].post.id != r[j].post.id
    ensures forall i :: 0 <= i < |r| ==> r[i].post in posts
    ensures forall p :: p in posts ==> exists i :: 0 <= i < |r| && r[i].post.id == p.id
  {
    var rows := OuterJoin(posts, votes);
    var keys := GroupKeys(rows, {});
    JoinGroupsSound(posts, votes);
    CountGroups(rows, keys)
  }

  /** Each group key with COUNT over its rows. */
  function CountGroups(rows: seq<JoinRow>, keys: seq<Post>): (r: seq<PostVotes>)
    ensures |r| == |keys|
    ensures forall i :: 0 <= i < |r| ==> r[i].post == keys[i] && r[i].votes == CountNonNull(rows, keys[i].id)
  {
    seq(|keys|, i requires 0 <= i < |keys| => PostVotes(keys[i], CountNonNull(rows, keys[i].id)))
  }

  /** A given post has a group of the outer join: it is not lost for lack of votes. */
  lemma JoinGroupCovers(posts: seq<Post>, votes: seq<VoteRow>, p: Post)
    requires p in posts
    ensures exists i :: 0 <= i < |GroupKeys(OuterJoin(posts, votes), {})| &&
              GroupKeys(OuterJoin(posts, votes), {})[i].id == p.id
  {
    var rows := OuterJoin(posts, votes);
    var keys := GroupKeys(rows, {});
    GroupKeysCover(rows, {});
    OuterJoinPosts(posts, votes);
    assert p in PostsOf(rows);
    var row :| row in rows && row.post == p;
    assert p.id in IdsOf(keys);
    var q :| q in keys && q.id == p.id;
    var i :| 0 <= i < |keys| && keys[i] == q;
  }

  /** The groups of the outer join have distinct ids, are given posts, and
      cover every given post. */
  lemma JoinGroupsSound(posts: seq<Post>, votes: seq<VoteRow>)
    ensures var keys := GroupKeys(OuterJoin(posts, votes), {});
            && (forall i, j :: 0 <= i < j < |keys| ==> keys[i].id != keys[j].id)
            && (forall i :: 0 <= i < |keys| ==> keys[i] in posts)
            && (forall p :: p in posts ==> exists i :: 0 <= i < |keys| && keys[i].id == p.id)
  {
    var rows := OuterJoin(posts, votes);
    var keys := GroupKeys(rows, {});
    GroupKeysFresh(rows, {});
    GroupKeysDistinct(rows, {});
    OuterJoinPosts(posts, votes);
    forall i | 0 <= i < |keys|
      ensures keys[i] in posts
    {
      assert keys[i] in keys;
    }
    forall p | p in posts
      ensures exists i :: 0 <= i < |keys| && keys[i].id == p.id
    {
      JoinGroupCovers(posts, votes, p);
    }
  }

  lemma PostsOfAppend(a: seq<JoinRow>, b: seq<JoinRow>)
    ensures PostsOf(a + b) == PostsOf(a) + PostsOf(b)
  {
    assert forall row :: row in a + b <==> row in a || row in b;
  }

  /** The outer join mentions every post, and only the given posts. */
  lemma {:induction false} OuterJoinPosts(posts: seq<Post>, votes: seq<VoteRow>)
    ensures PostsOf(OuterJoin(posts, votes)) == set p | p in posts
  {
    if posts != [] {
      var p := posts[0];
      JoinOneShape(p, votes);
      assert JoinOne(p, votes)[0] in JoinOne(p, votes);
      assert PostsOf(JoinOne(p, votes)) == {p};
      PostsOfAppend(JoinOne(p, votes), OuterJoin(posts[1..], votes));
      OuterJoinPosts(posts[1..], votes);
      assert (set q | q in posts) == {p} + set q | q in posts[1..] by {
        assert posts == [p] + posts[1..];
      }
    }
  }

  /** The group keys are posts of the rows whose ids are not in `seen`. */
  lemma {:induction false} GroupKeysFresh(rows: seq<JoinRow>, seen: set<int>)
    ensures forall p :: p in GroupKeys(rows, seen) ==> p.id !in seen && p in PostsOf(rows)
  {
    if rows != [] {
      var x := rows[0].post;
      assert rows[0] in rows;
      assert PostsOf(rows[1..]) <= PostsOf(rows) by {
        assert forall row :: row in rows[1..] ==> row in rows;
      }
      if x.id in seen {
        GroupKeysFresh(rows[1..], seen);
      } else {
        GroupKeysFresh(rows[1..], seen + {x.id});
        assert forall p :: p in GroupKeys(rows, seen) ==> p == x || p in GroupKeys(rows[1..], seen + {x.id});
      }
    }
  }

  /** No two group keys share an id. */
  lemma {:induction false} GroupKeysDistinct(rows: seq<JoinRow>, seen: set<int>)
    ensures forall i, j :: 0 <= i < j < |GroupKeys(rows, seen)| ==>
              GroupKeys(rows, seen)[i].id != GroupKeys(rows, seen)[j].id
  {
    if rows != [] {
      var x := rows[0].post;
      if x.id in seen {
        GroupKeysDistinct(rows[1..], seen);
      } else {
        var r := GroupKeys(rows, seen);
        var rest := GroupKeys(rows[1..], seen + {x.id});
        GroupKeysDistinct(rows[1..], seen + {x.id});
        GroupKeysFresh(rows[1..], seen + {x.id});
        assert r == [x] + rest;
        forall i, j | 0 <= i < j < |r|
          ensures r[i].id != r[j].id
        {
          assert r[j] == rest[j - 1] && rest[j - 1] in rest;
          if i > 0 {
            assert r[i] == rest[i - 1];
          }
        }
      }
    }
  }

  /** Every row's id is in `seen` or is the id of some group key: no group is lost. */
  lemma {:induction false} GroupKeysCover(rows: seq<JoinRow>, seen: set<int>)
    ensures forall row :: row in rows ==> row.post.id in seen || row.post.id in IdsOf(GroupKeys(rows, seen))
  {
    if rows != [] {
      var x := rows[0].post;
      assert forall row :: row in rows ==> row == rows[0] || row in rows[1..];
      if x.id in seen {
        GroupKeysCover(rows[1..], seen);
      } else {
        var r := GroupKeys(rows, seen);
        var rest := GroupKeys(rows[1..], seen + {x.id});
        GroupKeysCover(rows[1..], seen + {x.id});
        assert r == [x] + rest;
        assert x in r;
        assert forall q :: q in rest ==> q in r;
        assert IdsOf(rest) <= IdsOf(r);
      }
    }
  }

  lemma {:induction false} CountNonNullAppend(a: seq<JoinRow>, b: seq<JoinRow>, postId: int)
    ensures CountNonNull(a + b, postId) == CountNonNull(a, postId) + CountNonNull(b, postId)
  {
    if a != [] {
      assert (a + b)[1..] == a[1..] + b;
      CountNonNullAppend(a[1..], b, postId);
    } else {
      assert a + b == b;
    }
  }

  lemma {:induction false} CountNonNullPair(p: Post, matches: seq<VoteRow>, postId: int)
    ensures CountNonNull(Pair(p, matches), postId) == if p.id == postId then |matches| else 0
  {
    if matches != [] {
      assert Pair(p, matches)[1..] == Pair(p, matches[1..]);
      CountNonNullPair(p, matches[1..], postId);
    }
  }

  /** A post's own joined rows count exactly its votes; other posts' rows count nothing. */
  lemma CountNonNullJoinOne(p: Post, votes: seq<VoteRow>, postId: int)
    ensures CountNonNull(JoinOne(p, votes), postId)
            == if p.id == postId then CountVotes(votes, postId) else 0
  {
    CountNonNullPair(p, VotesFor(votes, p.id), postId);
  }

  lemma {:induction false} CountNonNullAbsent(posts: seq<Post>, votes: seq<VoteRow>, postId: int)
    requires forall p :: p in posts ==> p.id != postId
    ensures CountNonNull(OuterJoin(posts, votes), postId) == 0
  {
    if posts != [] {
      assert forall p :: p in posts[1..] ==> p in posts;
      CountNonNullAppend(JoinOne(posts[0], votes), OuterJoin(posts[1..], votes), postId);
      CountNonNullJoinOne(posts[0], votes, postId);
      CountNonNullAbsent(posts[1..], votes, postId);
    }
  }

  /** The count over the joined rows of a stored post is its number of vote rows. */
  lemma {:induction false} CountNonNullJoin(posts: seq<Post>, votes: seq<VoteRow>, p: Post)
    requires UniqueIds(posts) && p in posts
    ensures CountNonNull(OuterJoin(posts, votes), p.id) == CountVotes(votes, p.id)
  {
    var q := posts[0];
    CountNonNullAppend(JoinOne(q, votes), OuterJoin(posts[1..], votes), p.id);
    CountNonNullJoinOne(q, votes, p.id);
    if q.id == p.id {
      forall r | r in posts[1..]
        ensures r.id != p.id
      {
        var k :| 0 <= k < |posts[1..]| && posts[1..][k] == r;
        assert posts[k + 1] == r;
      }
      CountNonNullAbsent(posts[1..], votes, p.id);
    } else {
      assert p in posts[1..];
      CountNonNullJoin(posts[1..], votes, p);
    }
  }

  lemma {:induction false} GroupKeysSkip(a: seq<JoinRow>, b: seq<JoinRow>, seen: set<int>)
    requires forall r :: r in a ==> r.post.id in seen
    ensures GroupKeys(a + b, seen) == GroupKeys(b, seen)
  {
    if a != [] {
      assert (a + b)[1..] == a[1..] + b;
      assert a[0] in a;
      GroupKeysSkip(a[1..], b, seen);
    } else {
      assert a + b == b;
    }
  }

  /** Every post contributes at least one joined row, all carrying that post. */
  lemma JoinOneShape(p: Post, votes: seq<VoteRow>)
    ensures |JoinOne(p, votes)| > 0
    ensures forall r :: r in JoinOne(p, votes) ==> r.post == p
  {
  }

  /** A post's own joined rows open its group and contribute nothing else. */
  lemma GroupKeysJoinOne(p: Post, votes: seq<VoteRow>, rest: seq<JoinRow>, seen: set<int>)
    requires p.id !in seen
    ensures GroupKeys(JoinOne(p, votes) + rest, seen) == [p] + GroupKeys(rest, seen + {p.id})
  {
    var own := JoinOne(p, votes);
    JoinOneShape(p, votes);
    assert own[0] in own;
    assert (own + rest)[0] == own[0];
    assert (own + rest)[1..] == own[1..] + rest;
    assert forall r :: r in own[1..] ==> r in own;
    GroupKeysSkip(own[1..], rest, seen + {p.id});
  }

  /** Grouping the outer join yields every post exactly once, in order: none
      is dropped for lack of votes. */
  lemma {:induction false} GroupKeysOfJoin(posts: seq<Post>, votes: seq<VoteRow>, seen: set<int>)
    requires UniqueIds(posts)
    requires forall p :: p in posts ==> p.id !in seen
    ensures GroupKeys(OuterJoin(posts, votes), seen) == posts
  {
    if posts != [] {
      var p := posts[0];
      assert OuterJoin(posts, votes) == JoinOne(p, votes) + OuterJoin(posts[1..], votes);
      GroupKeysJoinOne(p, votes, OuterJoin(posts[1..], votes), seen);
      forall q | q in posts[1..]
        ensures q.id !in seen + {p.id}
      {
        var k :| 0 <= k < |posts[1..]| && posts[1..][k] == q;
        assert posts[k + 1] == q;
      }
      GroupKeysOfJoin(posts[1..], votes, seen + {p.id});
      assert posts == [p] + posts[1..];
    }
  }

  /** The aggregate has one entry per post, in storage order, whose count is
      the number of vote rows for that post (zero when there are none). */
  lemma AggregateCountsEveryPost(posts: seq<Post>, votes: seq<VoteRow>)
    requires UniqueIds(posts)
    ensures |Aggregate(posts, votes)| == |posts|
    ensures forall i :: 0 <= i < |posts| ==>
              Aggregate(posts, votes)[i] == PostVotes(posts[i], CountVotes(votes, posts[i].id))
  {
    GroupKeysOfJoin(posts, votes, {});
    forall i | 0 <= i < |posts|
      ensures CountNonNull(OuterJoin(posts, votes), posts[i].id) == CountVotes(votes, posts[i].id)
    {
      CountNonNullJoin(posts, votes, posts[i]);
    }
  }

  /** A post with no vote rows is reported with count 0. */
  lemma UnvotedPostCountsZero(posts: seq<Post>, votes: seq<VoteRow>, i: int)
    requires UniqueIds(posts) && 0 <= i < |posts|
    requires forall v :: v in votes ==> v.postId != posts[i].id
    ensures i < |Aggregate(posts, votes)|
    ensures Aggregate(posts, votes)[i] == PostVotes(posts[i], 0)
  {
    AggregateCountsEveryPost(posts, votes);
  }
}
