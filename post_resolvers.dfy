/**
 * The authenticated post mutations: postCreate, postUpdate, postDelete,
 * postPublish and postUnpublish. Each runs its checks in a fixed order
 * (authentication, the ownership gate, field presence, existence), stops at
 * the first that fails with an error payload and the store untouched, and
 * otherwise makes exactly one table change.
 *
 * Each operation is given twice: `XOutcome`, a function from the store
 * before to the payload and the store after, which carries the properties;
 * and the resolver itself, a method over the database object whose effect
 * is proved equal to it.
 */
module PostResolvers {
  import opened Wrappers
  import opened Schema
  import opened Messages
  import opened Client

  /**
   * `canUserMutatePost({userId, postId, prisma})`: an error payload to hand
   * back as it is, or None to let the mutation go ahead. Its body is not
   * part of this model, so it is a parameter.
   */
  type Gate = (Store, int, int) -> Option<PostPayload>

  /** The caller is signed in and the gate let the request through. */
  predicate Admitted(gate: Gate, s: Store, user: Option<UserInfo>, postId: int) {
    user.Some? && gate(s, user.value.userId, postId).None?
  }

  /** `p` is the gate's own error payload, returned unchanged. */
  predicate Forwarded(gate: Gate, s: Store, user: Option<UserInfo>, postId: int, p: PostPayload) {
    user.Some? && gate(s, user.value.userId, postId) == Some(p)
  }

  /** The gate lets a request through only for an existing post of the caller's. */
  ghost predicate AdmitsOnlyOwner(gate: Gate) {
    forall s: Store, userId: int, postId: int :: gate(s, userId, postId).None? ==>
      postId in s.posts && s.posts[postId].authorId == userId
  }

  // ---------------------------------------------------------------- postCreate

  function PostCreateOutcome(s: Store, user: Option<UserInfo>, input: PostInput): (r: (Reply<PostPayload>, Store))
    requires s.Valid()
    ensures r.1.Valid() && s.EvolvesTo(r.1)
    ensures r.0.Reply? ==> Conforms(r.0.payload)
    ensures !(r.0.Reply? && r.0.payload.post.Some?) ==> r.1 == s
    ensures user.None? ==> r == (Reply(PostPayload([UnauthenticatedOnCreate], None)), s)
    ensures user.Some? && !(Truthy(input.title) && Truthy(input.content)) ==>
      r == (Reply(PostPayload([MissingTitleOrContent], None)), s)
    ensures user.Some? && Truthy(input.title) && Truthy(input.content) && user.value.userId !in s.users ==>
      r == (StoreFault, s)
    ensures r.0.Reply? && r.0.payload.post.Some? <==>
      user.Some? && Truthy(input.title) && Truthy(input.content) && user.value.userId in s.users
    ensures r.0.Reply? && r.0.payload.post.Some? ==>
      var p := r.0.payload.post.value;
      && p.id !in s.posts
      && r.1 == s.(posts := s.posts[p.id := p], nextPostId := r.1.nextPostId)
      && p.title == input.title.value && p.content == input.content.value
      && p.authorId == user.value.userId && !p.published
  {
    if user.None? then (Reply(PostPayload([UnauthenticatedOnCreate], None)), s)
    else if !Truthy(input.title) || !Truthy(input.content) then (Reply(PostPayload([MissingTitleOrContent], None)), s)
    else match s.InsertPost(input.title.value, input.content.value, user.value.userId)
      case None => (StoreFault, s)
      case Some((data, s')) => (Reply(PostPayload([], Some(data))), s')
  }

  method PostCreate(db: Database, user: Option<UserInfo>, post: PostInput) returns (r: Reply<PostPayload>)
    requires db.Valid()
    modifies db
    ensures db.Valid()
    ensures (r, db.State()) == PostCreateOutcome(old(db.State()), user, post)
  {
    if user.None? {
      return Reply(PostPayload([UnauthenticatedOnCreate], None));
    }
    var title, content := post.title, post.content;
    if !Truthy(title) || !Truthy(content) {
      return Reply(PostPayload([MissingTitleOrContent], None));
    }
    var data := db.CreatePost(title.value, content.value, user.value.userId);
    if data.None? {
      return StoreFault;
    }
    return Reply(PostPayload([], data));
  }

  // ---------------------------------------------------------------- postUpdate

  function PostUpdateOutcome(s: Store, gate: Gate, user: Option<UserInfo>, postId: int, input: PostInput): (r: (PostPayload, Store))
    requires s.Valid()
    ensures r.1.Valid() && s.EvolvesTo(r.1)
    ensures Conforms(r.0) || Forwarded(gate, s, user, postId, r.0)
    ensures r.0.post.None? ==> r.1 == s
    ensures user.None? ==> r == (PostPayload([Unauthenticated], None), s)
    ensures user.Some? && gate(s, user.value.userId, postId).Some? ==>
      r == (gate(s, user.value.userId, postId).value, s)
    ensures Admitted(gate, s, user, postId) && !Truthy(input.title) && !Truthy(input.content) ==>
      r == (PostPayload([NothingToUpdate], None), s)
    ensures Admitted(gate, s, user, postId) && (Truthy(input.title) || Truthy(input.content)) && postId !in s.posts ==>
      r == (PostPayload([PostDeosNotExist], None), s)
    ensures Admitted(gate, s, user, postId) && (Truthy(input.title) || Truthy(input.content)) && postId in s.posts ==>
      && r.0.userErrors == [] && r.0.post.Some?
      && WritesTruthyFields(s.posts[postId], input, r.0.post.value)
      && r.1 == s.(posts := s.posts[postId := r.0.post.value])
  {
    if user.None? then (PostPayload([Unauthenticated], None), s)
    else
      var error := gate(s, user.value.userId, postId);
      if error.Some? then (error.value, s)
      else if !Truthy(input.title) && !Truthy(input.content) then (PostPayload([NothingToUpdate], None), s)
      else if s.FindPost(postId).None? then (PostPayload([PostDeosNotExist], None), s)
      else
        var (data, s') := s.UpdatePost(postId, TruthyPatch(input)).value;
        (PostPayload([], Some(data)), s')
  }

  method PostUpdate(db: Database, gate: Gate, user: Option<UserInfo>, postId: int, post: PostInput) returns (r: PostPayload)
    requires db.Valid()
    modifies db
    ensures db.Valid()
    ensures (r, db.State()) == PostUpdateOutcome(old(db.State()), gate, user, postId, post)
  {
    if user.None? {
      return PostPayload([Unauthenticated], None);
    }
    var error := gate(db.State(), user.value.userId, postId);
    if error.Some? {
      return error.value;
    }
    var title, content := post.title, post.content;
    if !Truthy(title) && !Truthy(content) {
      return PostPayload([NothingToUpdate], None);
    }
    var existingPost := db.FindPost(postId);
    if existingPost.None? {
      return PostPayload([PostDeosNotExist], None);
    }
    var payloadToUpdate := PostPatch(title, content, None);
    if !Truthy(title) {
      payloadToUpdate := payloadToUpdate.(title := None);
    }
    if !Truthy(content) {
      payloadToUpdate := payloadToUpdate.(content := None);
    }
    var data := db.UpdatePost(postId, payloadToUpdate);
    return PostPayload([], data);
  }

  // ---------------------------------------------------------------- postDelete

  function PostDeleteOutcome(s: Store, gate: Gate, user: Option<UserInfo>, postId: int): (r: (PostPayload, Store))
    requires s.Valid()
    ensures r.1.Valid() && s.EvolvesTo(r.1)
    ensures Conforms(r.0) || Forwarded(gate, s, user, postId, r.0)
    ensures r.0.post.None? ==> r.1 == s
    ensures user.None? ==> r == (PostPayload([Unauthenticated], None), s)
    ensures user.Some? && gate(s, user.value.userId, postId).Some? ==>
      r == (gate(s, user.value.userId, postId).value, s)
    ensures Admitted(gate, s, user, postId) && postId !in s.posts ==>
      r == (PostPayload([PostDoesNotExist], None), s)
    ensures Admitted(gate, s, user, postId) && postId in s.posts ==>
      && r.0 == PostPayload([], Some(s.posts[postId]))
      && r.1 == s.(posts := r.1.posts)
      && postId !in r.1.posts
      && forall id | id in s.posts && id != postId :: id in r.1.posts && r.1.posts[id] == s.posts[id]
  {
    if user.None? then (PostPayload([Unauthenticated], None), s)
    else
      var error := gate(s, user.value.userId, postId);
      if error.Some? then (error.value, s)
      else match s.FindPost(postId)
        case None => (PostPayload([PostDoesNotExist], None), s)
        case Some(post) => (PostPayload([], Some(post)), s.DeletePost(postId).value.1)
  }

  method PostDelete(db: Database, gate: Gate, user: Option<UserInfo>, postId: int) returns (r: PostPayload)
    requires db.Valid()
    modifies db
    ensures db.Valid()
    ensures (r, db.State()) == PostDeleteOutcome(old(db.State()), gate, user, postId)
  {
    if user.None? {
      return PostPayload([Unauthenticated], None);
    }
    var error := gate(db.State(), user.value.userId, postId);
    if error.Some? {
      return error.value;
    }
    var post := db.FindPost(postId);
    if post.None? {
      return PostPayload([PostDoesNotExist], None);
    }
    var _ := db.DeletePost(postId);
    return PostPayload([], post);
  }

  // ------------------------------------------------- postPublish, postUnpublish

  /** postPublish (`published` true) and postUnpublish (`published` false) differ only in the flag written. */
  function SetPublishedOutcome(s: Store, gate: Gate, user: Option<UserInfo>, postId: int, published: bool): (r: (Reply<PostPayload>, Store))
    requires s.Valid()
    ensures r.1.Valid() && s.EvolvesTo(r.1)
    ensures r.0.Reply? ==> Conforms(r.0.payload) || Forwarded(gate, s, user, postId, r.0.payload)
    ensures !(r.0.Reply? && r.0.payload.post.Some?) ==> r.1 == s
    ensures user.None? ==> r == (Reply(PostPayload([Unauthenticated], None)), s)
    ensures user.Some? && gate(s, user.value.userId, postId).Some? ==>
      r == (Reply(gate(s, user.value.userId, postId).value), s)
    ensures Admitted(gate, s, user, postId) && postId !in s.posts ==> r == (StoreFault, s)
    ensures Admitted(gate, s, user, postId) && postId in s.posts ==>
      var p := s.posts[postId];
      var q := Post(p.id, p.title, p.content, published, p.authorId);
      r == (Reply(PostPayload([], Some(q))), s.(posts := s.posts[postId := q]))
  {
    if user.None? then (Reply(PostPayload([Unauthenticated], None)), s)
    else
      var error := gate(s, user.value.userId, postId);
      if error.Some? then (Reply(error.value), s)
      else match s.UpdatePost(postId, PostPatch(None, None, Some(published)))
        case None => (StoreFault, s)
        case Some((data, s')) => (Reply(PostPayload([], Some(data))), s')
  }

  method PostPublish(db: Database, gate: Gate, user: Option<UserInfo>, postId: int) returns (r: Reply<PostPayload>)
    requires db.Valid()
    modifies db
    ensures db.Valid()
    ensures (r, db.State()) == SetPublishedOutcome(old(db.State()), gate, user, postId, true)
  {
    if user.None? {
      return Reply(PostPayload([Unauthenticated], None));
    }
    var error := gate(db.State(), user.value.userId, postId);
    if error.Some? {
      return Reply(error.value);
    }
    var data := db.UpdatePost(postId, PostPatch(None, None, Some(true)));
    if data.None? {
      return StoreFault;
    }
    return Reply(PostPayload([], data));
  }

  method PostUnpublish(db: Database, gate: Gate, user: Option<UserInfo>, postId: int) returns (r: Reply<PostPayload>)
    requires db.Valid()
    modifies db
    ensures db.Valid()
    ensures (r, db.State()) == SetPublishedOutcome(old(db.State()), gate, user, postId, false)
  {
    if user.None? {
      return Reply(PostPayload([Unauthenticated], None));
    }
    var error := gate(db.State(), user.value.userId, postId);
    if error.Some? {
      return Reply(error.value);
    }
    var data := db.UpdatePost(postId, PostPatch(None, None, Some(false)));
    if data.None? {
      return StoreFault;
    }
    return Reply(PostPayload([], data));
  }

  // ---------------------------------------------------------------- properties

  /** Publishing (or unpublishing) twice leaves the same store as doing it once, whatever the gate answers the second time. */
  lemma SetPublishedIdempotent(s: Store, gate: Gate, user: Option<UserInfo>, postId: int, published: bool)
    requires s.Valid()
    ensures var once := SetPublishedOutcome(s, gate, user, postId, published).1;
            SetPublishedOutcome(once, gate, user, postId, published).1 == once
  {
  }

  /**
   * With a gate that admits only the post's author, a post mutation that
   * changes the store changes a post of the caller's, and publishing never
   * reaches the client's throw on a missing row.
   */
  lemma OnlyOwnerChangesPosts(s: Store, gate: Gate, user: Option<UserInfo>, postId: int, input: PostInput, published: bool)
    requires s.Valid() && AdmitsOnlyOwner(gate)
    ensures PostUpdateOutcome(s, gate, user, postId, input).1 != s ==>
      user.Some? && postId in s.posts && s.posts[postId].authorId == user.value.userId
    ensures PostDeleteOutcome(s, gate, user, postId).1 != s ==>
      user.Some? && postId in s.posts && s.posts[postId].authorId == user.value.userId
    ensures SetPublishedOutcome(s, gate, user, postId, published).1 != s ==>
      user.Some? && postId in s.posts && s.posts[postId].authorId == user.value.userId
    ensures SetPublishedOutcome(s, gate, user, postId, published).0.Reply?
  {
  }
}
