/**
 * The three tables the resolvers read and write (post, user, profile), the
 * payload shapes they return, and the table operations of the ORM client,
 * as pure functions on a value of the whole store.
 */
module Schema {
  import opened Wrappers

  /** A row of the post table (`createdAt` is not modelled). */
  datatype Post = Post(id: int, title: string, content: string, published: bool, authorId: int)

  /** A row of the user table; `password` holds the hash, never the plaintext. */
  datatype User = User(id: int, email: string, name: string, password: string)

  /** A row of the profile table, owned by the user `userId`. */
  datatype Profile = Profile(id: int, bio: string, userId: int)

  /** The identity decoded from the request's token (`userInfo` in the context). */
  datatype UserInfo = UserInfo(userId: int)

  /** The `post: {title?, content?}` argument of postCreate and postUpdate. */
  datatype PostInput = PostInput(title: Option<string>, content: Option<string>)

  /** `{userErrors, post}`: what every post mutation returns. */
  datatype PostPayload = PostPayload(userErrors: seq<string>, post: Option<Post>)

  /** `{userErrors, token}`: what signup and signin return. */
  datatype UserPayload = UserPayload(userErrors: seq<string>, token: Option<string>)

  /** A resolver either returns its payload, or the ORM call inside it throws. */
  datatype Reply<P> = Reply(payload: P) | StoreFault

  /** JavaScript truthiness of an optional string: present and not empty. */
  predicate Truthy(s: Option<string>) {
    s.Some? && s.value != ""
  }

  /** The payload convention: errors and entity exclude each other, and one of them is there. */
  predicate Conforms(p: PostPayload) {
    (p.userErrors == []) == p.post.Some?
  }

  predicate UserConforms(p: UserPayload) {
    (p.userErrors == []) == p.token.Some?
  }

  /**
   * The rule of postUpdate: `q` is `p` with each truthy field of `input`
   * written over it and every other field kept.
   */
  predicate WritesTruthyFields(p: Post, input: PostInput, q: Post) {
    && q.id == p.id
    && q.authorId == p.authorId
    && q.published == p.published
    && q.title == (if Truthy(input.title) then input.title.value else p.title)
    && q.content == (if Truthy(input.content) then input.content.value else p.content)
  }

  /** The `data` of a partial `prisma.post.update`: only the present fields are written. */
  datatype PostPatch = PostPatch(title: Option<string>, content: Option<string>, published: Option<bool>)

  function ApplyPatch(p: Post, patch: PostPatch): (q: Post)
    ensures q.id == p.id && q.authorId == p.authorId
    ensures q.title == (if patch.title.Some? then patch.title.value else p.title)
    ensures q.content == (if patch.content.Some? then patch.content.value else p.content)
    ensures q.published == (if patch.published.Some? then patch.published.value else p.published)
    ensures patch.title.None? ==> q.title == p.title
    ensures patch.content.None? ==> q.content == p.content
    ensures patch.published.None? ==> q.published == p.published
  {
    Post(p.id, patch.title.GetOr(p.title), patch.content.GetOr(p.content),
         patch.published.GetOr(p.published), p.authorId)
  }

  /**
   * postUpdate's `payloadToUpdate`: `{title, content}` with each falsy field
   * deleted, so that the update writes exactly the truthy fields.
   */
  function TruthyPatch(input: PostInput): (patch: PostPatch)
    ensures patch.published.None?
    ensures forall p: Post :: WritesTruthyFields(p, input, ApplyPatch(p, patch))
  {
    PostPatch(if Truthy(input.title) then input.title else None,
              if Truthy(input.content) then input.content else None,
              None)
  }

  /**
   * The whole store. `userByEmail` is the unique index on `user.email`;
   * `nextPostId` and `nextUserId` stand for the database's fresh-id source.
   */
  datatype Store = Store(
    posts: map<int, Post>,
    users: map<int, User>,
    userByEmail: map<string, int>,
    profiles: seq<Profile>,
    nextPostId: int,
    nextUserId: int)
  {
    /**
     * Every row sits under its own id, below the next fresh id; every post's
     * author and every profile's owner is a user; the email index matches
     * the user table.
     */
    ghost predicate Valid() {
      && (forall id | id in posts :: posts[id].id == id && id < nextPostId)
      && (forall id | id in posts :: posts[id].authorId in users)
      && (forall id | id in users :: users[id].id == id && id < nextUserId)
      && (forall id | id in users :: users[id].email in userByEmail && userByEmail[users[id].email] == id)
      && (forall e | e in userByEmail :: userByEmail[e] in users && users[userByEmail[e]].email == e)
      && (forall i | 0 <= i < |profiles| :: profiles[i].id == i && profiles[i].userId in users)
    }

    /**
     * What every operation keeps from one store to the next: post ids are
     * never handed out twice, a surviving post keeps its author, users are
     * never changed or removed, and profiles are only appended.
     */
    ghost predicate EvolvesTo(s': Store) {
      && nextPostId <= s'.nextPostId
      && nextUserId <= s'.nextUserId
      && (forall id | id in s'.posts && id !in posts :: nextPostId <= id)
      && (forall id | id in s'.posts && id in posts :: s'.posts[id].authorId == posts[id].authorId)
      && (forall id | id in users :: id in s'.users && s'.users[id] == users[id])
      && profiles <= s'.profiles
    }

    /** `prisma.post.findUnique({where: {id}})`. */
    function FindPost(id: int): (r: Option<Post>)
      ensures r.Some? <==> id in posts
      ensures r.Some? ==> r.value == posts[id]
    {
      if id in posts then Some(posts[id]) else None
    }

    /**
     * `prisma.post.create`: the new row takes a fresh id and is not
     * published; None when `authorId` names no user (the foreign key throws).
     */
    function InsertPost(title: string, content: string, authorId: int): (r: Option<(Post, Store)>)
      ensures r.None? <==> authorId !in users
      ensures r.Some? ==> r.value.0 == Post(r.value.0.id, title, content, false, authorId)
      ensures r.Some? ==> r.value.1 == this.(posts := posts[r.value.0.id := r.value.0], nextPostId := r.value.1.nextPostId)
      ensures Valid() && r.Some? ==> r.value.0.id !in posts && r.value.1.Valid() && EvolvesTo(r.value.1)
    {
      if authorId !in users then None
      else
        var p := Post(nextPostId, title, content, false, authorId);
        Some((p, this.(posts := posts[p.id := p], nextPostId := nextPostId + 1)))
    }

    /** `prisma.post.update`: None when there is no row `id` (the client throws). */
    function UpdatePost(id: int, patch: PostPatch): (r: Option<(Post, Store)>)
      ensures r.None? <==> id !in posts
      ensures r.Some? ==> r.value.0 == ApplyPatch(posts[id], patch)
      ensures r.Some? ==> r.value.1 == this.(posts := posts[id := r.value.0])
      ensures Valid() && r.Some? ==> r.value.1.Valid() && EvolvesTo(r.value.1)
    {
      if id !in posts then None
      else
        var q := ApplyPatch(posts[id], patch);
        Some((q, this.(posts := posts[id := q])))
    }

    /** `prisma.post.delete`: returns the removed row; None when there is none (the client throws). */
    function DeletePost(id: int): (r: Option<(Post, Store)>)
      ensures r.None? <==> id !in posts
      ensures r.Some? ==> r.value.0 == posts[id] && r.value.1 == this.(posts := r.value.1.posts)
      ensures r.Some? ==> id !in r.value.1.posts
      ensures r.Some? ==> forall k | k in posts && k != id :: k in r.value.1.posts && r.value.1.posts[k] == posts[k]
      ensures r.Some? ==> r.value.1.posts.Keys <= posts.Keys
      ensures Valid() && r.Some? ==> r.value.1.Valid() && EvolvesTo(r.value.1)
    {
      if id !in posts then None
      else Some((posts[id], this.(posts := posts - {id})))
    }

    /** `prisma.user.findUnique({where: {email}})`, through the unique index. */
    function FindUserByEmail(email: string): (r: Option<User>)
      ensures r.Some? ==> r.value in users.Values
      ensures Valid() && r.Some? ==> r.value.email == email && r.value.id in users && users[r.value.id] == r.value
      ensures Valid() ==> (r.None? <==> forall id | id in users :: users[id].email != email)
    {
      if email in userByEmail && userByEmail[email] in users then
        var id := userByEmail[email];
        assert Valid() ==> users[id].id == id;
        Some(users[id])
      else None
    }

    /**
     * `prisma.user.create`: the new row takes a fresh id and enters the email
     * index; None when the email is taken (the unique constraint throws).
     */
    function InsertUser(email: string, name: string, password: string): (r: Option<(User, Store)>)
      ensures r.None? <==> email in userByEmail
      ensures r.Some? ==> r.value.0 == User(r.value.0.id, email, name, password)
      ensures r.Some? ==> r.value.1 == this.(users := users[r.value.0.id := r.value.0],
                                            userByEmail := userByEmail[email := r.value.0.id],
                                            nextUserId := r.value.1.nextUserId)
      ensures Valid() && r.Some? ==>
        && r.value.0.id !in users
        && r.value.1.Valid()
        && EvolvesTo(r.value.1)
        && r.value.1.FindUserByEmail(email) == Some(r.value.0)
    {
      if email in userByEmail then None
      else
        var u := User(nextUserId, email, name, password);
        Some((u, this.(users := users[u.id := u], userByEmail := userByEmail[email := u.id],
                       nextUserId := nextUserId + 1)))
    }

    /** `prisma.profile.create`: appends a profile owned by `userId`. */
    function InsertProfile(bio: string, userId: int): (r: (Profile, Store))
      ensures r.0.bio == bio && r.0.userId == userId
      ensures r.1 == this.(profiles := profiles + [r.0])
      ensures EvolvesTo(r.1)
      ensures Valid() && userId in users ==> r.1.Valid()
    {
      var pr := Profile(|profiles|, bio, userId);
      (pr, this.(profiles := profiles + [pr]))
    }
  }

  /** The store of a fresh database. */
  function Empty(): (s: Store)
    ensures s.Valid() && s.posts == map[] && s.users == map[] && s.profiles == []
  {
    Store(map[], map[], map[], [], 1, 1)
  }

  /** A store only ever moves forward: EvolvesTo is transitive between valid stores. */
  lemma EvolvesTransitive(a: Store, b: Store, c: Store)
    requires a.Valid() && a.EvolvesTo(b) && b.EvolvesTo(c)
    ensures a.EvolvesTo(c)
  {
  }
}
