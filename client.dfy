/**
 * The ORM client the resolvers receive in their context (`prisma`): a
 * database object whose tables the calls update in place. Each call's new
 * state is the Schema table operation applied to the old state.
 */
module Client {
  import opened Wrappers
  import opened Schema

  class Database {
    var posts: map<int, Post>
    var users: map<int, User>
    var userByEmail: map<string, int>
    var profiles: seq<Profile>
    var nextPostId: int
    var nextUserId: int

    /** The tables as one value. */
    function State(): Store
      reads this
    {
      Store(posts, users, userByEmail, profiles, nextPostId, nextUserId)
    }

    ghost predicate Valid()
      reads this
    {
      State().Valid()
    }

    constructor ()
      ensures State() == Empty() && Valid()
    {
      posts, users, userByEmail, profiles := map[], map[], map[], [];
      nextPostId, nextUserId := 1, 1;
    }

    /** `prisma.post.findUnique({where: {id}})`. */
    function FindPost(id: int): (r: Option<Post>)
      reads this
      ensures r == State().FindPost(id)
    {
      State().FindPost(id)
    }

    /** `prisma.post.create({data: {title, content, authorId}})`; None stands for the foreign-key throw. */
    method CreatePost(title: string, content: string, authorId: int) returns (r: Option<Post>)
      modifies this
      ensures old(State()).InsertPost(title, content, authorId) == if r.None? then None else Some((r.value, State()))
      ensures r.None? ==> State() == old(State())
    {
      if authorId !in users {
        return None;
      }
      var p := Post(nextPostId, title, content, false, authorId);
      posts := posts[p.id := p];
      nextPostId := nextPostId + 1;
      r := Some(p);
    }

    /** `prisma.post.update({where: {id}, data: patch})`; None stands for the throw on a missing row. */
    method UpdatePost(id: int, patch: PostPatch) returns (r: Option<Post>)
      modifies this
      ensures old(State()).UpdatePost(id, patch) == if r.None? then None else Some((r.value, State()))
      ensures r.None? ==> State() == old(State())
    {
      if id !in posts {
        return None;
      }
      var q := ApplyPatch(posts[id], patch);
      posts := posts[id := q];
      r := Some(q);
    }

    /** `prisma.post.delete({where: {id}})`; None stands for the throw on a missing row. */
    method DeletePost(id: int) returns (r: Option<Post>)
      modifies this
      ensures old(State()).DeletePost(id) == if r.None? then None else Some((r.value, State()))
      ensures r.None? ==> State() == old(State())
    {
      if id !in posts {
        return None;
      }
      r := Some(posts[id]);
      posts := posts - {id};
    }

    /** `prisma.user.create({data: {email, name, password}})`; None stands for the unique-email throw. */
    method CreateUser(email: string, name: string, password: string) returns (r: Option<User>)
      modifies this
      ensures old(State()).InsertUser(email, name, password) == if r.None? then None else Some((r.value, State()))
      ensures r.None? ==> State() == old(State())
    {
      if email in userByEmail {
        return None;
      }
      var u := User(nextUserId, email, name, password);
      users := users[u.id := u];
      userByEmail := userByEmail[email := u.id];
      nextUserId := nextUserId + 1;
      r := Some(u);
    }

    /** `prisma.profile.create({data: {bio, userId}})`. */
    method CreateProfile(bio: string, userId: int) returns (pr: Profile)
      modifies this
      ensures (pr, State()) == old(State()).InsertProfile(bio, userId)
    {
      pr := Profile(|profiles|, bio, userId);
      profiles := profiles + [pr];
    }
  }
}
