/** The request and response shapes of the API, with the validation rules
    they impose (app/schemas.py). */
module Schemas {
  import opened Outcomes

  /** A database-generated timestamp; only its identity matters here. */
  datatype Timestamp = Timestamp(ticks: int)

  /** Registration payload: an e-mail address and a plaintext password. */
  datatype UserCreate = UserCreate(email: string, password: string)

  /** The public view of a user. It has no password field, so no value of this
      type can carry a password, hashed or not. */
  datatype UserOut = UserOut(id: int, email: string, createdAt: Timestamp)

  /** The editable fields of a post, shared by the create and update payloads. */
  datatype PostBase = PostBase(title: string, content: string, isPublished: bool)

  /** Both payloads are exactly the base fields; neither names an owner. */
  type PostCreate = PostBase
  type PostUpdate = PostBase

  /** A post as returned to clients, including its owner's public view. */
  datatype PostResponse = PostResponse(
    title: string, content: string, isPublished: bool,
    id: int, createdAt: Timestamp, userId: int, owner: UserOut)

  /** One listing entry: a post paired with its vote count. */
  datatype PostOut = PostOut(post: PostResponse, votes: int)

  /** The vote payload; `dir` is a plain integer bounded only from above. */
  datatype VotePayload = VotePayload(postId: int, dir: int)

  /** Builds a post payload from the fields a client sent; an omitted
      `is_published` takes the default `true`. */
  function ParsePostBase(title: string, content: string, isPublished: Option<bool>): (b: PostBase)
    ensures b.title == title && b.content == content
    ensures b.isPublished <==> (isPublished == None || isPublished == Some(true))
  {
    match isPublished
    case None => PostBase(title, content, true)
    case Some(flag) => PostBase(title, content, flag)
  }

  /** The schema's only constraint on a vote: `dir <= 1`. */
  predicate ValidVote(v: VotePayload) {
    v.dir <= 1
  }

  /** Validation of a vote body: accepted unchanged or refused with 422. */
  function ValidateVote(v: VotePayload): (r: Result<VotePayload>)
    ensures r.Ok? <==> v.dir <= 1
    ensures r.Ok? ==> r.value == v
    ensures r.Err? ==> r.error == ValidationError
  {
    if ValidVote(v) then Ok(v) else Err(ValidationError)
  }

  /** There is no lower bound: any negative direction passes the schema. */
  lemma NegativeDirectionAccepted(postId: int, dir: int)
    requires dir < 0
    ensures ValidateVote(VotePayload(postId, dir)) == Ok(VotePayload(postId, dir))
  {
  }
}
