/** Round trips between the post handlers. */
module PostRoundTrips {
  import opened Outcomes
  import opened Schemas
  import opened Store
  import opened Aggregation
  import opened PostRouter

  /** A created post can be read back under its new id, with no votes yet
      unless vote rows already name that id. */
  lemma CreatePostThenGet(db: Db, actor: int, payload: PostCreate, newId: int, createdAt: Timestamp, reader: int)
    requires Valid(db) && actor in db.users
    requires forall p :: p in db.posts ==> p.id != newId
    ensures var s := CreatePost(db, actor, payload, newId, createdAt);
            GetPost(s.state, reader, newId) == Ok(PostOut(s.reply.value, CountVotes(db.votes, newId)))
  {
  }

  /** After a successful deletion the post can no longer be read. */
  lemma DeleteThenGet(db: Db, actor: int, id: int, reader: int)
    requires Valid(db)
    requires DeletePost(db, actor, id).reply.Ok?
    ensures GetPost(DeletePost(db, actor, id).state, reader, id) == Err(NotFound)
  {
  }

  /** After a successful update, reading the post returns the updated response
      and the unchanged vote count. */
  lemma UpdateThenGet(db: Db, actor: int, id: int, payload: PostUpdate, reader: int)
    requires Valid(db)
    requires UpdatePost(db, actor, id, payload).reply.Ok?
    ensures var s := UpdatePost(db, actor, id, payload);
            GetPost(s.state, reader, id) == Ok(PostOut(s.reply.value, CountVotes(db.votes, id)))
  {
  }

  /** A refused request by a non-owner leaves every stored post as it was. */
  lemma NonOwnerChangesNothing(db: Db, actor: int, id: int, payload: PostUpdate, p: Post)
    requires Valid(db) && p in db.posts && p.id == id && p.userId != actor
    ensures DeletePost(db, actor, id) == Step(db, Err(Forbidden))
    ensures UpdatePost(db, actor, id, payload) == Step(db, Err(Forbidden))
  {
  }
}
