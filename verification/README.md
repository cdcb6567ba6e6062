# Post and user store of a small social-posting API

This project is a Dafny model of the request handlers behind the `/posts` and
`/users` routes of a FastAPI service, and of the request and response schemas
they use. The database is one immutable value `Db`:

- a map of users (id, e-mail, stored password, creation time);
- the posts in storage order (id, title, content, published flag, owner id,
  creation time);
- the rows of the votes table, each a (user id, post id) pair.

The four mutating handlers return a `Step`: the database after the call and
the reply. The three read handlers return only their reply, so they cannot
change the state. Handlers fail with `NotFound` (404) or `Forbidden` (403).
`ValidationError` (422) comes only from the vote schema check.
The authenticated caller is passed in as `actor`, the caller's user id. The
password hash is a function parameter. Ids and timestamps assigned by the
database are parameters too.

Modules:

- `Outcomes`: the error, option and result types.
- `Schemas`: the payload and response shapes, the `is_published` default and
  the vote rule `dir <= 1`.
- `Text`: title substring search.
- `Paging`: limit/offset.
- `Store`: stored records, the integrity invariant `Valid`, selection and
  lookup by id.
- `Aggregation`: the vote-count query, modelled step by step as it is written:
  a left outer join of posts with vote rows, a GROUP BY post id, and a COUNT of
  the non-NULL vote side. It is then proved equal to the plain definition "post
  i with the number of vote rows naming it". So no post is dropped for having
  no votes.
- `PostRouter` and `PostRoundTrips`: the post handlers and how they relate.
- `UserRouter`: registration and lookup.

Behaviour of the code worth knowing:

- The vote body is checked only by `dir <= 1`. There is no two-valued
  direction, and negative values pass (`Schemas.NegativeDirectionAccepted`).
- The listing query has no ORDER BY. The model uses one fixed order: the order
  in which posts are stored, with new posts appended at the end.
- `get_post` has no ownership check, because that code is commented out. Any
  caller can read any post.
- The user routes do not take an authenticated caller.
- `GET /posts` with no query parameters returns at most ten posts
  (`PostRouter.DefaultPage`).
- A PUT body that leaves out `is_published` gets the schema default `true`.
  That default overwrites the stored flag, so such an update publishes the post
  (`PostRouter.UpdateWithoutFlagPublishes`).

## Model

| member | source | states |
|---|---|---|
| `Schemas.ParsePostBase` | app/schemas.py:23-35 | create and update payloads carry exactly title, content and is_published; an omitted is_published becomes true, an explicit one is kept |
| `Schemas.ValidateVote` | app/schemas.py:67-69 | a vote body is accepted, unchanged, iff `dir <= 1`; otherwise it is refused with a validation error |
| `Schemas.NegativeDirectionAccepted` | app/schemas.py:69 | there is no lower bound: every negative `dir` is accepted |
| `Text.Contains` | app/routers/post.py:18 | the title test: the empty search matches every title, and a match is never longer than the title |
| `Text.ContainsIffOccurs` | app/routers/post.py:18 | the title filter holds exactly when the search string occurs at some index of the title (both directions) |
| `Text.EmptyMatchesAll` | app/routers/post.py:13 | the default empty search matches every title |
| `Paging.Paginate` | app/routers/post.py:19 | the page is the contiguous run of the input starting at index `skip`, with `min(limit, remaining)` entries, and is empty when `skip` is past the end |
| `Store.Find` | app/routers/post.py:59-60 | the lookup by id returns a stored post with that id, and returns nothing exactly when no stored post has that id |
| `Store.FindUnique` | app/routers/post.py:44-45 | with unique ids, the lookup by a stored post's id returns that very post |
| `Store.SelectAppend` | app/routers/post.py:18 | a filter keeps relative order: filtering a concatenation is filtering each part, in order |
| `Store.SelectRemovesOne` | app/routers/post.py:50 | with unique ids, deleting by the id of the post at index k leaves the posts before k followed by the posts after k |
| `Store.UserView` | app/schemas.py:14-17 | the public view of a user carries its id, e-mail and creation time and nothing else |
| `Store.UserViewIgnoresPassword` | app/schemas.py:14-17 | a user's public view is the same whatever password is stored |
| `Store.Respond` | app/schemas.py:38-45 | a post's response carries all its stored fields and its owner's public view |
| `Aggregation.CountNonNullJoin` | app/routers/post.py:16-17 | COUNT of the non-NULL vote side over a stored post's joined rows equals the number of vote rows naming that post |
| `Aggregation.OuterJoinPosts` | app/routers/post.py:16-17 | the left outer join has a row for every post and only for the given posts, voted or not |
| `Aggregation.GroupKeysFresh` | app/routers/post.py:18 | every group key is a post of the joined rows |
| `Aggregation.GroupKeysDistinct` | app/routers/post.py:18 | grouping by post id yields no id twice |
| `Aggregation.GroupKeysCover` | app/routers/post.py:18 | every joined row falls into some group |
| `Aggregation.JoinGroupCovers` | app/routers/post.py:16-18 | every given post has a group in the grouped outer join |
| `Aggregation.JoinGroupsSound` | app/routers/post.py:16-18 | the groups of the outer join are given posts with distinct ids, one for every given post |
| `Aggregation.Aggregate` | app/routers/post.py:16-18 | the vote-count query yields one entry per distinct post id, only for given posts, and no given post is missing, even without unique ids |
| `Aggregation.GroupKeysOfJoin` | app/routers/post.py:16-18 | grouping the outer join by post id yields every post exactly once, in storage order, including posts without votes |
| `Aggregation.AggregateCountsEveryPost` | app/routers/post.py:16-18 | the aggregate has one entry per post, in order, whose count is that post's number of vote rows |
| `Aggregation.UnvotedPostCountsZero` | app/routers/post.py:16-17 | a post no vote row names is reported with count 0, not omitted |
| `PostRouter.FilterByTitle` | app/routers/post.py:18 | the filtered posts are exactly the stored posts whose title contains the search string, and their ids stay unique |
| `PostRouter.FilterByTitleKeepsOrder` | app/routers/post.py:18 | the title filter keeps storage order: on a concatenation it is the filter of each part, in order |
| `PostRouter.Listing` | app/routers/post.py:16-18 | the unpaginated listing pairs each post that passes the filter, in order, with its response (owner resolved) and its vote count |
| `PostRouter.GetPosts` | app/routers/post.py:10-20 | the reply holds at most `limit` entries and is the run of the listing that starts at `skip` |
| `PostRouter.DefaultPage` | app/routers/post.py:13-19 | with the default `limit=10`, `skip=0` and empty search, the reply is the first min(10, number of posts) stored posts, in storage order, with their vote counts |
| `PostRouter.ListedExactlyOnce` | app/routers/post.py:16-19 | a stored post whose title matches appears in the listing, with its vote count, at exactly one index |
| `PostRouter.ListedOnlyIfMatching` | app/routers/post.py:18 | every listed entry is a stored post whose title matches, with that post's vote count |
| `PostRouter.ListedIffMatching` | app/routers/post.py:18 | a stored post is listed iff its title contains the search string |
| `PostRouter.EmptySearchListsAll` | app/routers/post.py:13-19 | with the default search the unpaginated listing holds every stored post, in storage order, with its vote count (the reply is then cut to the page) |
| `PostRouter.GetPost` | app/routers/post.py:29-36 | NotFound iff no stored post has the id; otherwise that post with its vote count; the caller plays no part |
| `PostRouter.GetPostUnvotedIsZero` | app/routers/post.py:29-33 | a stored post without vote rows is returned with 0 votes |
| `PostRouter.DeletePost` | app/routers/post.py:44-51 | NotFound iff the id is absent; Forbidden iff the post exists and the caller is not its owner; success iff the caller owns it; either error leaves the state unchanged; on success exactly that post is removed and the others keep their order |
| `PostRouter.WithoutId` | app/routers/post.py:50 | the posts left by deleting an id are exactly those with other ids; with unique ids they are the posts before and after the deleted index, in order |
| `PostRouter.ApplyUpdate` | app/routers/post.py:65 | an update sets title, content and published flag from the payload and keeps id, owner and creation time |
| `PostRouter.UpdatePost` | app/routers/post.py:59-67 | NotFound, then Forbidden, each leaving the state unchanged; success iff the caller owns the post; at every index id, owner and creation time are kept and other posts are unchanged; on success the owner's post takes the payload's three fields and is returned |
| `PostRouter.UpdateWithoutFlagPublishes` | app/schemas.py:26 | a successful update whose body omits is_published leaves the post published |
| `PostRouter.CreatePost` | app/routers/post.py:78-82 | exactly one post is appended, owned by the caller, with the payload's fields and the assigned id and time; earlier posts are unchanged; the reply is the stored post with its owner's view |
| `PostRoundTrips.CreatePostThenGet` | app/routers/post.py:74-82 | a created post is read back under its new id, as the creation replied |
| `PostRoundTrips.DeleteThenGet` | app/routers/post.py:44-51 | after a successful delete, reading the id gives NotFound |
| `PostRoundTrips.UpdateThenGet` | app/routers/post.py:59-67 | after a successful update, reading the id gives the updated response with an unchanged vote count |
| `PostRoundTrips.NonOwnerChangesNothing` | app/routers/post.py:59-64 | delete and update by a non-owner of an existing post reply Forbidden and return the state unchanged |
| `UserRouter.CreateUser` | app/routers/user.py:11-17 | exactly one user is added, under the new id; it stores `hash(password)` in place of the submitted password; existing users are unchanged; the reply is the new user's public view |
| `UserRouter.CreateUserReplyHidesPassword` | app/routers/user.py:8-17 | the registration reply is the same whatever the password and whatever the hash function |
| `UserRouter.GetUser` | app/routers/user.py:23-26 | NotFound iff the id is absent; otherwise the user's id, e-mail and creation time, with no password |
| `UserRouter.CreateUserThenGet` | app/routers/user.py:8-26 | looking up a newly registered id returns the registration's reply |

## Left out

- Token issuance and validation and the `get_current_user` dependency are not part of this model. The caller's id is a parameter.
- The vote toggle router is not part of this model. Only the vote schema is modelled.
- `hash_password` is not part of this model. It is a function parameter with no properties assumed, so nothing is proved about the hash differing from the plaintext.
- Sessions, commit and refresh are not modelled. Each handler is one atomic step.
- Asynchronous execution is not modelled.
- CORS setup and router registration in app/main.py are left out, because they hold no logic.
- E-mail format validation (`EmailStr`) is library behaviour and is left out.
- Uniqueness of e-mails and of vote pairs is enforced by the database schema, which is not part of this model. Vote rows are a sequence that may repeat.
- Ids and creation times come from the database. They are parameters, and the new id is required to be fresh.
- `PostRouter.CreatePost` requires the caller to exist in the store. The authentication dependency loads the caller from the database, so the caller always exists.
- `PostRouter.GetPosts` takes `limit` and `skip` as natural numbers. What a negative value does depends on the database backend, which is not part of this model.
- `PostRouter.FilterByTitle` treats the search string as a plain substring. The `%` and `_` wildcards of SQL LIKE and any case folding by the backend are not modelled.
- `PostRouter.DeletePost` leaves vote rows untouched. Any cascade to votes is defined in the database models, which are not part of this model.
- Posts without an owner in the store are excluded by the invariant `Store.Valid`. The owner's foreign key guarantees this.
