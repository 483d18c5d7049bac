/**
 * The older, unauthenticated post mutations: postCreate, postUpdate and
 * postDelete over the same post table. There is no identity and no gate;
 * every post is created with author 1, and postUpdate checks the fields
 * before it looks the post up.
 */
module LegacyResolvers {
  import PostResolvers
  import opened Wrappers
  import opened Schema
  import opened Messages
  import opened Client

  /**
   * The author every legacy postCreate writes, whoever calls it; on a store
   * with no user 1 the create hits the foreign key and throws.
   */
  const LegacyAuthorId: int := 1

  function PostCreateOutcome(s: Store, input: PostInput): (r: (Reply<PostPayload>, Store))
    requires s.Valid()
    ensures r.1.Valid() && s.EvolvesTo(r.1)
    ensures r.0.Reply? ==> Conforms(r.0.payload)
    ensures !(r.0.Reply? && r.0.payload.post.Some?) ==> r.1 == s
    ensures !(Truthy(input.title) && Truthy(input.content)) ==>
      r == (Reply(PostPayload([MissingTitleOrContent], None)), s)
    ensures Truthy(input.title) && Truthy(input.content) && LegacyAuthorId !in s.users ==> r == (StoreFault, s)
    ensures Truthy(input.title) && Truthy(input.content) && LegacyAuthorId in s.users ==>
      && r.0.Reply? && r.0.payload.userErrors == [] && r.0.payload.post.Some?
      && var p := r.0.payload.post.value;
      && p.id !in s.posts
      && r.1 == s.(posts := s.posts[p.id := p], nextPostId := r.1.nextPostId)
      && p.title == input.title.value && p.content == input.content.value
      && p.authorId == LegacyAuthorId && !p.published
  {
    if !Truthy(input.title) || !Truthy(input.content) then (Reply(PostPayload([MissingTitleOrContent], None)), s)
    else match s.InsertPost(input.title.value, input.content.value, LegacyAuthorId)
      case None => (StoreFault, s)
      case Some((data, s')) => (Reply(PostPayload([], Some(data))), s')
  }

  method PostCreate(db: Database, post: PostInput) returns (r: Reply<PostPayload>)
    requires db.Valid()
    modifies db
    ensures db.Valid()
    ensures (r, db.State()) == PostCreateOutcome(old(db.State()), post)
  {
    var title, content := post.title, post.content;
    if !Truthy(title) || !Truthy(content) {
      return Reply(PostPayload([MissingTitleOrContent], None));
    }
    var data := db.CreatePost(title.value, content.value, LegacyAuthorId);
    if data.None? {
      return StoreFault;
    }
    return Reply(PostPayload([], data));
  }

  function PostUpdateOutcome(s: Store, postId: int, input: PostInput): (r: (PostPayload, Store))
    requires s.Valid()
    ensures r.1.Valid() && s.EvolvesTo(r.1)
    ensures Conforms(r.0)
    ensures r.0.post.None? ==> r.1 == s
    ensures !Truthy(input.title) && !Truthy(input.content) ==> r == (PostPayload([NothingToUpdate], None), s)
    ensures (Truthy(input.title) || Truthy(input.content)) && postId !in s.posts ==>
      r == (PostPayload([PostDeosNotExist], None), s)
    ensures (Truthy(input.title) || Truthy(input.content)) && postId in s.posts ==>
      && r.0.userErrors == [] && r.0.post.Some?
      && WritesTruthyFields(s.posts[postId], input, r.0.post.value)
      && r.1 == s.(posts := s.posts[postId := r.0.post.value])
  {
    if !Truthy(input.title) && !Truthy(input.content) then (PostPayload([NothingToUpdate], None), s)
    else if s.FindPost(postId).None? then (PostPayload([PostDeosNotExist], None), s)
    else
      var (data, s') := s.UpdatePost(postId, TruthyPatch(input)).value;
      (PostPayload([], Some(data)), s')
  }

  method PostUpdate(db: Database, postId: int, post: PostInput) returns (r: PostPayload)
    requires db.Valid()
    modifies db
    ensures db.Valid()
    ensures (r, db.State()) == PostUpdateOutcome(old(db.State()), postId, post)
  {
    var title, content := post.title, post.content;
    if !Truthy(title) && !Truthy(content) {
      return PostPayload([NothingToUpdate], None);
    }
    var existingPost := db.FindPost(postId);
    if existingPost.None? {
      return PostPayload([PostDeosNotExist], None);
    }
    var payloadToUpdate := PostPatch(title, content, None);
    if !Truthy(title) {
      payloadToUpdate := payloadToUpdate.(title := None);
    }
    if !Truthy(content) {
      payloadToUpdate := payloadToUpdate.(content := None);
    }
    var data := db.UpdatePost(postId, payloadToUpdate);
    return PostPayload([], data);
  }

  function PostDeleteOutcome(s: Store, postId: int): (r: (PostPayload, Store))
    requires s.Valid()
    ensures r.1.Valid() && s.EvolvesTo(r.1)
    ensures Conforms(r.0)
    ensures r.0.post.None? ==> r.1 == s
    ensures postId !in s.posts ==> r == (PostPayload([PostDeosNotExist], None), s)
    ensures postId in s.posts ==>
      && r.0 == PostPayload([], Some(s.posts[postId]))
      && r.1 == s.(posts := r.1.posts)
      && postId !in r.1.posts
      && forall id | id in s.posts && id != postId :: id in r.1.posts && r.1.posts[id] == s.posts[id]
  {
    match s.FindPost(postId)
    case None => (PostPayload([PostDeosNotExist], None), s)
    case Some(post) => (PostPayload([], Some(post)), s.DeletePost(postId).value.1)
  }

  method PostDelete(db: Database, postId: int) returns (r: PostPayload)
    requires db.Valid()
    modifies db
    ensures db.Valid()
    ensures (r, db.State()) == PostDeleteOutcome(old(db.State()), postId)
  {
    var post := db.FindPost(postId);
    if post.None? {
      return PostPayload([PostDeosNotExist], None);
    }
    var _ := db.DeletePost(postId);
    return PostPayload([], post);
  }

  /**
   * The legacy postUpdate and the authenticated one agree once the caller
   * is signed in and admitted by the gate: the same check order after the
   * gate, the same messages and the same truthy-field merge.
   */
  lemma AgreesWithAuthenticatedUpdate(s: Store, gate: PostResolvers.Gate, user: Option<UserInfo>, postId: int, input: PostInput)
    requires s.Valid() && PostResolvers.Admitted(gate, s, user, postId)
    ensures PostUpdateOutcome(s, postId, input) == PostResolvers.PostUpdateOutcome(s, gate, user, postId, input)
  {
  }
}
