/**
 * signup and signin. signup validates email, then password length, then
 * name and bio, stopping at the first failure; it then writes a user row
 * with the hashed password and a profile row for that user, and returns a
 * token for the new id. signin looks the user up by email and compares the
 * password with the stored hash; it only reads the store.
 */
module AuthResolvers {
  import opened Wrappers
  import opened Schema
  import opened Messages
  import opened Client

  /**
   * The foreign primitives: `validator.isEmail`, `bcrypt.hash(password, 10)`
   * (the random salt made an argument), `bcrypt.compare(plaintext, digest)`
   * and `jwt.sign({userId}, secret, {expiresIn: '7d'})`.
   */
  datatype Crypto = Crypto(
    isEmail: string -> bool,
    hash: (string, string) -> string,
    compare: (string, string) -> bool,
    sign: int -> string)

  /** The `credentials: {email, password}` argument. */
  datatype Credentials = Credentials(email: string, password: string)

  /** `validator.isLength(password, {min: 5})`. */
  const MinPasswordLength: nat := 5

  /** One validation of signup: whether it passed, and the message reported if not. */
  datatype Check = Check(passed: bool, message: string)

  /** signup's validations, in the order the resolver runs them. */
  function SignupChecks(crypto: Crypto, credentials: Credentials, name: Option<string>, bio: Option<string>): seq<Check> {
    [ Check(crypto.isEmail(credentials.email), InvalidEmail),
      Check(|credentials.password| >= MinPasswordLength, InvalidPassword),
      Check(Truthy(name) && Truthy(bio), InvalidNameOrBio) ]
  }

  /** Every check of signup passes. */
  predicate SignupInputValid(crypto: Crypto, credentials: Credentials, name: Option<string>, bio: Option<string>) {
    && crypto.isEmail(credentials.email)
    && |credentials.password| >= MinPasswordLength
    && Truthy(name) && Truthy(bio)
  }

  /** The position of the first check that fails, or |checks| when all pass. */
  function FirstFailing(checks: seq<Check>): (i: nat)
    ensures i <= |checks|
    ensures forall j | 0 <= j < i :: checks[j].passed
    ensures i < |checks| ==> !checks[i].passed
  {
    if checks == [] || !checks[0].passed then 0
    else 1 + FirstFailing(checks[1..])
  }

  /** Over three checks, the first failure is found by testing them in order. */
  lemma FirstFailingOfThree(checks: seq<Check>)
    requires |checks| == 3
    ensures FirstFailing(checks) ==
      if !checks[0].passed then 0
      else if !checks[1].passed then 1
      else if !checks[2].passed then 2
      else 3
  {
    assert checks[1..][1..] == checks[2..];
    assert checks[2..][1..] == [];
  }

  function SignupOutcome(s: Store, crypto: Crypto, credentials: Credentials, name: Option<string>,
                         bio: Option<string>, salt: string): (r: (Reply<UserPayload>, Store))
    requires s.Valid()
    ensures r.1.Valid() && s.EvolvesTo(r.1)
    ensures r.0.Reply? ==> UserConforms(r.0.payload)
    ensures !(r.0.Reply? && r.0.payload.userErrors == []) ==> r.1 == s
    ensures var checks := SignupChecks(crypto, credentials, name, bio);
            var i := FirstFailing(checks);
            i < |checks| ==> r == (Reply(UserPayload([checks[i].message], None)), s)
    ensures (SignupInputValid(crypto, credentials, name, bio) &&
             s.FindUserByEmail(credentials.email).Some?) ==> r == (StoreFault, s)
    ensures (SignupInputValid(crypto, credentials, name, bio) &&
             s.FindUserByEmail(credentials.email).None?) ==>
      var u := User(s.nextUserId, credentials.email, name.value, crypto.hash(credentials.password, salt));
      && u.id !in s.users
      && r.0 == Reply(UserPayload([], Some(crypto.sign(u.id))))
      && r.1.users == s.users[u.id := u]
      && r.1.FindUserByEmail(credentials.email) == Some(u)
      && r.1.profiles == s.profiles + [Profile(|s.profiles|, bio.value, u.id)]
      && r.1.posts == s.posts
  {
    FirstFailingOfThree(SignupChecks(crypto, credentials, name, bio));
    var email, password := credentials.email, credentials.password;
    if !crypto.isEmail(email) then (Reply(UserPayload([InvalidEmail], None)), s)
    else if |password| < MinPasswordLength then (Reply(UserPayload([InvalidPassword], None)), s)
    else if !Truthy(name) || !Truthy(bio) then (Reply(UserPayload([InvalidNameOrBio], None)), s)
    else
      match s.InsertUser(email, name.value, crypto.hash(password, salt))
      case None => (StoreFault, s)
      case Some((user, s1)) =>
        var (_, s2) := s1.InsertProfile(bio.value, user.id);
        (Reply(UserPayload([], Some(crypto.sign(user.id)))), s2)
  }

  method Signup(db: Database, crypto: Crypto, credentials: Credentials, name: Option<string>,
                bio: Option<string>, salt: string) returns (r: Reply<UserPayload>)
    requires db.Valid()
    modifies db
    ensures db.Valid()
    ensures (r, db.State()) == SignupOutcome(old(db.State()), crypto, credentials, name, bio, salt)
  {
    var email, password := credentials.email, credentials.password;
    var isEmail := crypto.isEmail(email);
    if !isEmail {
      return Reply(UserPayload([InvalidEmail], None));
    }
    var isValidPassword := |password| >= MinPasswordLength;
    if !isValidPassword {
      return Reply(UserPayload([InvalidPassword], None));
    }
    if !Truthy(name) || !Truthy(bio) {
      return Reply(UserPayload([InvalidNameOrBio], None));
    }
    var hashedPassword := crypto.hash(password, salt);
    var user := db.CreateUser(email, name.value, hashedPassword);
    if user.None? {
      return StoreFault;
    }
    var _ := db.CreateProfile(bio.value, user.value.id);
    var token := crypto.sign(user.value.id);
    return Reply(UserPayload([], Some(token)));
  }

  /** signin: a lookup and a comparison, with no write to the store. */
  function Signin(s: Store, crypto: Crypto, credentials: Credentials): (r: UserPayload)
    ensures UserConforms(r)
    ensures s.Valid() && (forall id | id in s.users :: s.users[id].email != credentials.email) ==>
      r == UserPayload([UnknownEmail], None)
    ensures s.Valid() ==>
      forall id | id in s.users && s.users[id].email == credentials.email ::
        r == if crypto.compare(credentials.password, s.users[id].password)
             then UserPayload([], Some(crypto.sign(id)))
             else UserPayload([WrongPassword], None)
  {
    match s.FindUserByEmail(credentials.email)
    case None => UserPayload([UnknownEmail], None)
    case Some(user) =>
      if !crypto.compare(credentials.password, user.password) then UserPayload([WrongPassword], None)
      else UserPayload([], Some(crypto.sign(user.id)))
  }

  /**
   * Signing in right after a successful signup, with the same credentials,
   * succeeds with a token for the new user's id, provided the hash accepts
   * the password it was made from.
   */
  lemma SignupThenSignin(s: Store, crypto: Crypto, credentials: Credentials, name: Option<string>,
                         bio: Option<string>, salt: string)
    requires s.Valid()
    requires crypto.compare(credentials.password, crypto.hash(credentials.password, salt))
    ensures var (reply, s') := SignupOutcome(s, crypto, credentials, name, bio, salt);
            reply.Reply? && reply.payload.userErrors == [] ==>
              Signin(s', crypto, credentials) == UserPayload([], Some(crypto.sign(s.nextUserId)))
  {
  }
}
