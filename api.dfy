/**
 * The mutation surface as a whole: any sequence of requests to the
 * resolvers, run against one store. What every single resolver keeps
 * (Store.EvolvesTo) then holds over the whole run: post ids are never
 * reused, a post's author never changes, and users are never altered or
 * removed.
 */
module Api {
  import opened Wrappers
  import opened Schema
  import PostResolvers
  import LegacyResolvers
  import AuthResolvers

  /** The foreign collaborators one run is performed against. */
  datatype Env = Env(gate: PostResolvers.Gate, crypto: AuthResolvers.Crypto)

  /** One mutation request, with its arguments and the caller's identity where the resolver reads it. */
  datatype Request =
    | PostCreate(user: Option<UserInfo>, post: PostInput)
    | PostUpdate(user: Option<UserInfo>, postId: int, post: PostInput)
    | PostDelete(user: Option<UserInfo>, postId: int)
    | PostPublish(user: Option<UserInfo>, postId: int)
    | PostUnpublish(user: Option<UserInfo>, postId: int)
    | LegacyPostCreate(post: PostInput)
    | LegacyPostUpdate(postId: int, post: PostInput)
    | LegacyPostDelete(postId: int)
    | Signup(credentials: AuthResolvers.Credentials, name: Option<string>, bio: Option<string>, salt: string)
    | Signin(credentials: AuthResolvers.Credentials)

  /** The store after one request. */
  function Handle(s: Store, env: Env, req: Request): (s': Store)
    requires s.Valid()
    ensures s'.Valid() && s.EvolvesTo(s')
    ensures req.Signin? ==> s' == s
  {
    match req
    case PostCreate(user, post) => PostResolvers.PostCreateOutcome(s, user, post).1
    case PostUpdate(user, postId, post) => PostResolvers.PostUpdateOutcome(s, env.gate, user, postId, post).1
    case PostDelete(user, postId) => PostResolvers.PostDeleteOutcome(s, env.gate, user, postId).1
    case PostPublish(user, postId) => PostResolvers.SetPublishedOutcome(s, env.gate, user, postId, true).1
    case PostUnpublish(user, postId) => PostResolvers.SetPublishedOutcome(s, env.gate, user, postId, false).1
    case LegacyPostCreate(post) => LegacyResolvers.PostCreateOutcome(s, post).1
    case LegacyPostUpdate(postId, post) => LegacyResolvers.PostUpdateOutcome(s, postId, post).1
    case LegacyPostDelete(postId) => LegacyResolvers.PostDeleteOutcome(s, postId).1
    case Signup(credentials, name, bio, salt) =>
      AuthResolvers.SignupOutcome(s, env.crypto, credentials, name, bio, salt).1
    case Signin(_) => s
  }

  /** The store after the requests, handled one after another. */
  function Run(s: Store, env: Env, reqs: seq<Request>): (s': Store)
    requires s.Valid()
    ensures s'.Valid()
    decreases |reqs|
  {
    if reqs == [] then s else Run(Handle(s, env, reqs[0]), env, reqs[1..])
  }

  /** Over any run, ids are not reused, surviving posts keep their author, and users stay as they were. */
  lemma {:induction false} RunEvolves(s: Store, env: Env, reqs: seq<Request>)
    requires s.Valid()
    ensures s.EvolvesTo(Run(s, env, reqs))
    decreases |reqs|
  {
    if reqs != [] {
      var s1 := Handle(s, env, reqs[0]);
      RunEvolves(s1, env, reqs[1..]);
      EvolvesTransitive(s, s1, Run(s1, env, reqs[1..]));
    }
  }

  /** A post that exists before and after a run has the same author: ownership is fixed at creation. */
  lemma AuthorNeverChanges(s: Store, env: Env, reqs: seq<Request>, id: int)
    requires s.Valid()
    requires id in s.posts && id in Run(s, env, reqs).posts
    ensures Run(s, env, reqs).posts[id].authorId == s.posts[id].authorId
  {
    RunEvolves(s, env, reqs);
  }

  /** A post id that was in use and is gone never comes back. */
  lemma DeletedIdStaysFree(s: Store, env: Env, reqs: seq<Request>, id: int)
    requires s.Valid()
    requires id < s.nextPostId && id !in s.posts
    ensures id !in Run(s, env, reqs).posts
  {
    RunEvolves(s, env, reqs);
  }
}
