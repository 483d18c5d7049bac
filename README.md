# Blog API mutation resolvers in Dafny

A model of the write side of a GraphQL blog backend: the authenticated post
mutations (`postCreate`, `postUpdate`, `postDelete`, `postPublish`,
`postUnpublish`), the older unauthenticated variant of the first three, and
the auth mutations (`signup`, `signin`). Every resolver returns the payload
`{userErrors, post}` or `{userErrors, token}` instead of throwing for
business conditions. Each one runs a fixed chain of checks and stops at the
first that fails, leaving the store as it was. It returns either one of its
own literal messages or, for the ownership gate, the gate's payload as it is.
When every check passes it makes its table change: an insert, a partial
merge, a removal or a flag set. That change can still throw inside the ORM
client (see below).

Modules, one per concern:

- `Wrappers` (`wrappers.dfy`): `Option`.
- `Messages` (`messages.dfy`): the error strings, exactly as the resolvers
  write them. The typos are kept: `'Forbidden access (unauthenticated'` on
  postCreate, `"tilte"`, the trailing `'` of the empty-update message,
  `'Post deos not exist'`, and `"Invalid credentials"` beside
  `'Invalid Credentials'`.
- `Schema` (`schema.dfy`): the post, user and profile rows and the payloads.
  `Store` is the whole database as a value. It has an email index and
  fresh-id counters. `Store.Valid` is the table invariant. `Store.EvolvesTo`
  is what every operation keeps: ids are never reused, a post's author never
  changes, and users are never altered. The ORM calls are pure functions on
  `Store`.
- `Client` (`client.dfy`): `Database`, the ORM client as a class whose
  fields are the tables. Its methods update those fields in place. Each
  method is proved to produce the `Schema` operation of the old state.
- `PostResolvers` (`post_resolvers.dfy`), `LegacyResolvers`
  (`legacy_resolvers.dfy`) and `AuthResolvers` (`auth_resolvers.dfy`): each
  resolver appears twice. `XOutcome` is a function from the store before to
  the payload and the store after, and it carries the properties. The
  resolver itself is a method over `Database` that follows the source step
  by step, and its postcondition says it equals `XOutcome`. `signin` only
  reads, so it is a function.
- `Api` (`api.dfy`): any sequence of mutation requests, and the proof by
  induction that `EvolvesTo` holds over the whole run.

Collaborators whose code is not part of this model are parameters:

- the ownership gate `canUserMutatePost` is a `Gate`, a function from the
  store, the user id and the post id to an optional error payload;
- `validator.isEmail`, `bcrypt.hash` and `bcrypt.compare` are fields of
  `Crypto`;
- `jwt.sign({userId}, secret, {expiresIn: '7d'})` is `Crypto.sign`, a
  function of the user id.

The random salt of `bcrypt.hash` is an explicit `salt` argument. When an ORM
call throws, the resolver ends in `Reply.StoreFault`, and the model leaves
the store unchanged. Three calls can throw this way: `post.update` on a
missing row, reached by publish and unpublish because they do not re-check
existence; `post.create` for an author with no user row, because
`post.authorId` is a foreign key to the user table (the legacy postCreate
always writes author 1); and `user.create` with an email that is already
taken, because the email column is unique.

## Model

| member | source | states |
|---|---|---|
| `Schema.ApplyPatch` | src/resolvers/Mutation/post.ts:114-117 | a partial update keeps id and author, writes every field present in the patch, and keeps every field absent from it |
| `Schema.TruthyPatch` | src/resolvers/Mutation/post.ts:106-112 | `payloadToUpdate` with falsy keys deleted: applied to any post it writes exactly the truthy title/content, keeps the rest, and never touches `published` |
| `Schema.Store.FindPost` | src/resolvers/Mutation/post.ts:91-95 | finds a post exactly when its id is in the table, and returns that row |
| `Schema.Store.InsertPost` | src/resolvers/Mutation/post.ts:46-52 | fails exactly when the author is not a user (the foreign-key throw); otherwise the created row has the given title, content and author and is unpublished; its id was not in use; only the post table and the id counter change; validity and `EvolvesTo` are kept |
| `Schema.Store.UpdatePost` | src/resolvers/Mutation/post.ts:114-117 | fails exactly when the id is missing; otherwise only that row changes, to the patched row; validity and `EvolvesTo` are kept |
| `Schema.Store.DeletePost` | src/resolvers/Mutation/post.ts:165-169 | fails exactly when the id is missing; otherwise returns the old row, removes that id, keeps every other row, and adds none |
| `Schema.Store.FindUserByEmail` | src/resolvers/Mutation/auth.ts:100-104 | on a valid store, returns the user with that email, and returns None exactly when no user has it |
| `Schema.Store.InsertUser` | src/resolvers/Mutation/auth.ts:71-77 | fails exactly when the email is taken; otherwise adds one user with the given email, name and password under a fresh id, and the email lookup then finds that user |
| `Schema.Store.InsertProfile` | src/resolvers/Mutation/auth.ts:79-84 | appends one profile with the given bio owned by `userId`, and nothing else changes |
| `Client.Database.FindPost` | src/resolvers/Mutation/post.ts:91-95 | the client's lookup agrees with `Store.FindPost` on its current tables |
| `Client.Database.CreatePost` | src/resolvers/Mutation/post.ts:46-52 | the in-place insert equals `InsertPost` of the old tables and returns the new row; for an author with no user row it reports the throw and changes nothing |
| `Client.Database.UpdatePost` | src/resolvers/Mutation/post.ts:114-117 | the in-place update equals `UpdatePost` of the old tables; on a missing row it reports the throw and changes nothing |
| `Client.Database.DeletePost` | src/resolvers/Mutation/post.ts:165-169 | the in-place delete equals `DeletePost` of the old tables; on a missing row it reports the throw and changes nothing |
| `Client.Database.CreateUser` | src/resolvers/Mutation/auth.ts:71-77 | the in-place insert equals `InsertUser` of the old tables; on a taken email it reports the throw and changes nothing |
| `Client.Database.CreateProfile` | src/resolvers/Mutation/auth.ts:79-84 | the in-place append equals `InsertProfile` of the old tables |
| `PostResolvers.PostCreateOutcome` | src/resolvers/Mutation/post.ts:26-58 | with no user: the one error `'Forbidden access (unauthenticated'`; signed in with a falsy title or content: the one "tilte" error; on error no post and the store unchanged; a caller id with no user row reaches the client's foreign-key throw with the store unchanged; otherwise exactly one new post under a fresh id, with the given title and content, `authorId = userInfo.userId`, unpublished; existing posts unchanged and the payload convention holds |
| `PostResolvers.PostCreate` | src/resolvers/Mutation/post.ts:26-58 | the resolver's returned payload and new tables are those of `PostCreateOutcome` |
| `PostResolvers.PostUpdateOutcome` | src/resolvers/Mutation/post.ts:59-123 | checks run in order: unauthenticated, then the gate's payload returned as is, then "Need to have at least one field to update'", then `'Post deos not exist'`; each stops with the store unchanged; on success only that post changes, and only its truthy fields are written |
| `PostResolvers.PostUpdate` | src/resolvers/Mutation/post.ts:59-123 | the resolver, with its in-place deletion of falsy keys, yields exactly `PostUpdateOutcome` |
| `PostResolvers.PostDeleteOutcome` | src/resolvers/Mutation/post.ts:124-175 | unauthenticated, then the gate, then "Post does not exist"; on success it returns the post as it was, its id is gone, and every other post is unchanged |
| `PostResolvers.PostDelete` | src/resolvers/Mutation/post.ts:124-175 | the resolver yields exactly `PostDeleteOutcome` |
| `PostResolvers.SetPublishedOutcome` | src/resolvers/Mutation/post.ts:176-251 | unauthenticated, then the gate; with no existence re-check, a missing post reaches the client's throw and leaves the store unchanged; otherwise only `published` of that post is set, to true or false, and the updated post is returned |
| `PostResolvers.PostPublish` | src/resolvers/Mutation/post.ts:176-213 | the resolver yields exactly `SetPublishedOutcome` with `published = true` |
| `PostResolvers.PostUnpublish` | src/resolvers/Mutation/post.ts:214-251 | the resolver yields exactly `SetPublishedOutcome` with `published = false` |
| `PostResolvers.SetPublishedIdempotent` | src/resolvers/Mutation/post.ts:200-207 | publishing (or unpublishing) twice leaves the same store as doing it once, whatever the gate says the second time |
| `PostResolvers.OnlyOwnerChangesPosts` | src/resolvers/Mutation/post.ts:72-78 | if the gate admits only a post's author, then update, delete and (un)publish change the store only for a post the caller owns, and publishing never reaches the client's throw |
| `LegacyResolvers.PostCreateOutcome` | src/resolvers/Mutation.ts:25-48 | with a falsy title or content: the "tilte" error and no change; on a store with no user 1, the client's foreign-key throw and no change; otherwise one new post under a fresh id with the given fields and author 1, whoever calls |
| `LegacyResolvers.PostCreate` | src/resolvers/Mutation.ts:25-48 | the resolver yields exactly the legacy `PostCreateOutcome` |
| `LegacyResolvers.PostUpdateOutcome` | src/resolvers/Mutation.ts:49-93 | the empty-update error comes before any lookup, even for a missing id; a missing id gives `'Post deos not exist'` with no change; on success only that post changes, and only its truthy fields are written |
| `LegacyResolvers.PostUpdate` | src/resolvers/Mutation.ts:49-93 | the resolver yields exactly the legacy `PostUpdateOutcome` |
| `LegacyResolvers.PostDeleteOutcome` | src/resolvers/Mutation.ts:94-120 | a missing id gives `'Post deos not exist'` and deletes nothing; otherwise exactly that id is removed and the old post is returned |
| `LegacyResolvers.PostDelete` | src/resolvers/Mutation.ts:94-120 | the resolver yields exactly the legacy `PostDeleteOutcome` |
| `LegacyResolvers.AgreesWithAuthenticatedUpdate` | src/resolvers/Mutation.ts:49-93 | once the caller is signed in and admitted by the gate, the legacy and authenticated postUpdate give the same payload and store |
| `AuthResolvers.FirstFailing` | src/resolvers/Mutation/auth.ts:36-67 | the index it returns is that of the first failing check: every earlier check passes and that one fails, or every check passes |
| `AuthResolvers.FirstFailingOfThree` | src/resolvers/Mutation/auth.ts:36-67 | over signup's three checks, the first failure is email, else password, else name/bio, else none |
| `AuthResolvers.SignupOutcome` | src/resolvers/Mutation/auth.ts:32-96 | the reported error is the message of the first failing check (email, then password length ≥ 5, then name/bio), with a null token and no write; a taken email is a store fault with no write; otherwise exactly one user with the email, the name and `hash(password, salt)`, one profile with the bio owned by that user, and a token signed for that user's id |
| `AuthResolvers.Signup` | src/resolvers/Mutation/auth.ts:32-96 | the resolver, which writes the user row and then the profile row, yields exactly `SignupOutcome` |
| `AuthResolvers.Signin` | src/resolvers/Mutation/auth.ts:97-134 | an unknown email gives `"Invalid credentials"`; for the user with that email, a failed compare gives `'Invalid Credentials'` and a passing one a token for that user's id; a token is present exactly when there is no error |
| `AuthResolvers.SignupThenSignin` | src/resolvers/Mutation/auth.ts:86-133 | after a successful signup, signin with the same credentials succeeds with a token for the new user's id, given that `compare` accepts a password against its own hash |
| `Api.Handle` | src/resolvers/Mutation/post.ts:25-252 | every mutation request keeps the tables valid and keeps `EvolvesTo`; signin changes nothing |
| `Api.Run` | src/resolvers/Mutation.ts:24-121 | the request harness: any sequence of requests to the ten resolvers of the three mutation files keeps the tables valid, so every post's author and every profile's owner is a user |
| `Api.RunEvolves` | src/resolvers/Mutation/post.ts:25-252 | over any sequence of requests, post ids are never reused, surviving posts keep their author, and users are never changed or removed |
| `Api.AuthorNeverChanges` | src/resolvers/Mutation/post.ts:106-117 | a post present before and after any run has the same author |
| `Api.DeletedIdStaysFree` | src/resolvers/Mutation/post.ts:165-169 | a post id that was used and is gone stays free for the rest of any run |

## Left out

- `src/resolvers/Query.ts` (`me`, `profile`, `posts`): these are direct lookups, and the `createdAt` ordering belongs to the database.
- `canUserMutatePost`: its body is not part of this model. It is the `Gate` parameter, and its messages are not invented. `OnlyOwnerChangesPosts` assumes the ownership behaviour as a hypothesis.
- `validator.isEmail`, bcrypt and jwt are foreign primitives and stay uninterpreted. `validator.isLength` counts Unicode code points; here it is sequence length.
- Token expiry (`'7d'`), the issue-time claim and the secret key: the token is only `sign(userId)`.
- `Number(postId)` / `+postId` on a string argument, including NaN: `postId` is an integer.
- Autoincrement ids: a fresh-id counter stands in for them. `createdAt` timestamps are not modelled.
- The `published` default (false), the unique email column and the `post.authorId` foreign key: none appears in the resolver code. All three are assumptions about the database schema, which is not part of this model.
- Non-atomic signup: the user and profile writes are one step in `SignupOutcome`. A failure between them would leave a user without a profile. That is an infrastructure fault, and it is not modelled.
- Infrastructure faults other than the two ORM throws above (an unreachable store, a failing hash or sign): these are not modelled.
- async/await, the request `Context` wiring and the GraphQL schema are not modelled. Requests run one at a time, so the model does not capture a concurrent delete landing between `findUnique` and `update`/`delete` (src/resolvers/Mutation/post.ts:91-117, 148-169).
