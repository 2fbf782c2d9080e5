/** Registration, login and email verification over the user collection.
    Random tokens, the clock, password hashing and token signing are
    supplied from outside. */
module AuthService {
  import opened Common

  /** `Date.now() + 3600000`: a verification token lives one hour. */
  const TokenLifetimeMs: int := 3_600_000

  datatype User = User(
    id: Id,
    name: string,
    email: string,
    passwordHash: string,
    isVerified: bool,
    verificationToken: Option<string>,
    verificationTokenExpires: Option<int>)

  /** The public part of a user, sent back by `registerUser`. */
  datatype UserSummary = UserSummary(id: Id, name: string, email: string)

  /** What a successful `loginUser` answers. */
  datatype LoginReply = LoginReply(id: Id, name: string, email: string, token: string)

  /** The verification lookup: the user holds `token` and it expires
      strictly after `now`. */
  predicate TokenValid(u: User, token: string, now: int)
  {
    && u.verificationToken == Some(token)
    && u.verificationTokenExpires.Some?
    && u.verificationTokenExpires.value > now
  }

  /** Some stored user can be verified with `token` at time `now`. */
  ghost predicate CanVerify(users: map<Id, User>, token: string, now: int)
  {
    exists id :: id in users && TokenValid(users[id], token, now)
  }

  /** At most one stored user holds `token` (tokens are random). */
  ghost predicate TokenHeldOnce(users: map<Id, User>, token: string)
  {
    forall a, b ::
      (a in users && b in users && users[a].verificationToken == Some(token)
       && users[b].verificationToken == Some(token)) ==> a == b
  }

  /** The user collection. `hash`, `matchPassword` and `signToken` stand for
      the model's password hook, bcrypt's comparison and JWT signing. */
  class UserStore {
    var users: map<Id, User>
    var nextId: Id
    const hash: string -> string
    const matchPassword: (string, string) -> bool
    const signToken: Id -> string

    /** Ids are consistent and emails unique (`findOne({ email })` finds at most one). */
    ghost predicate Valid()
      reads this
    {
      && (forall id :: id in users ==> users[id].id == id && id < nextId)
      && (forall a, b :: a in users && b in users && users[a].email == users[b].email ==> a == b)
    }

    constructor (hash: string -> string, matchPassword: (string, string) -> bool, signToken: Id -> string)
      ensures Valid() && users == map[]
      ensures this.hash == hash && this.matchPassword == matchPassword && this.signToken == signToken
    {
      users := map[];
      nextId := 0;
      this.hash := hash;
      this.matchPassword := matchPassword;
      this.signToken := signToken;
    }

    /** `registerUser`: a duplicate email is refused; otherwise an unverified
        user is stored with `token` expiring an hour after `now`. The email
        is sent after the save, so a failed delivery (`delivered` false)
        answers 500 with the user already stored. */
    method Register(name: string, email: string, password: string,
                    token: string, now: int, delivered: bool)
      returns (r: Result<UserSummary>)
      requires Valid()
      modifies this
      ensures Valid()
      ensures r == Err(UserAlreadyExists) <==> exists id :: id in old(users) && old(users)[id].email == email
      ensures r == Err(UserAlreadyExists) ==> users == old(users)
      ensures r != Err(UserAlreadyExists) ==>
        var id := old(nextId);
        && id !in old(users)
        && users == old(users)[id := User(id, name, email, hash(password), false,
                                          Some(token), Some(now + TokenLifetimeMs))]
        && r == (if delivered then Ok(UserSummary(id, name, email)) else Err(ServerError))
      ensures forall id :: id in old(users) ==> id in users && users[id] == old(users)[id]
    {
      if exists id :: id in users && users[id].email == email {
        return Err(UserAlreadyExists);
      }
      var u := User(nextId, name, email, hash(password), false, None, None);
      u := u.(verificationToken := Some(token));
      u := u.(verificationTokenExpires := Some(now + TokenLifetimeMs));
      users := users[u.id := u];
      nextId := nextId + 1;
      if delivered {
        r := Ok(UserSummary(u.id, name, email));
      } else {
        r := Err(ServerError);
      }
    }

    /** `loginUser`: bad credentials are checked first, the verified flag
        second; a token is issued only to an existing, verified user whose
        password matches. */
    method Login(email: string, password: string) returns (r: Result<LoginReply>)
      requires Valid()
      ensures r.Ok? || r == Err(InvalidCredentials) || r == Err(EmailNotVerified)
      ensures r == Err(InvalidCredentials) <==>
        !exists id :: id in users && users[id].email == email
                      && matchPassword(users[id].passwordHash, password)
      ensures r == Err(EmailNotVerified) <==>
        exists id :: id in users && users[id].email == email
                     && matchPassword(users[id].passwordHash, password) && !users[id].isVerified
      ensures r.Ok? ==>
        exists id :: && id in users && users[id].email == email
                     && matchPassword(users[id].passwordHash, password) && users[id].isVerified
                     && r.value == LoginReply(id, users[id].name, email, signToken(id))
    {
      if exists id :: id in users && users[id].email == email {
        var id :| id in users && users[id].email == email;
        var u := users[id];
        if matchPassword(u.passwordHash, password) {
          if !u.isVerified {
            return Err(EmailNotVerified);
          }
          return Ok(LoginReply(u.id, u.name, u.email, signToken(u.id)));
        }
      }
      r := Err(InvalidCredentials);
    }

    /** `verifyEmail`: a user holding `token` with an expiry strictly after
        `now` becomes verified. The fields the handler clears are not the
        ones `Register` set, so the token and its expiry are kept. */
    method VerifyEmail(token: string, now: int) returns (r: Result<()>)
      requires Valid()
      modifies this
      ensures Valid()
      ensures r.Ok? <==> CanVerify(old(users), token, now)
      ensures r.Err? ==> r == Err(InvalidOrExpiredToken) && users == old(users)
      ensures r.Ok? ==> exists id :: && id in old(users) && TokenValid(old(users)[id], token, now)
                                     && users == old(users)[id := old(users)[id].(isVerified := true)]
      ensures users.Keys == old(users.Keys)
      ensures forall id :: id in users ==>
        && users[id].verificationToken == old(users)[id].verificationToken
        && users[id].verificationTokenExpires == old(users)[id].verificationTokenExpires
        && (old(users)[id].isVerified ==> users[id].isVerified)
      ensures CanVerify(users, token, now) == CanVerify(old(users), token, now)
      ensures nextId == old(nextId)
    {
      if !exists id :: id in users && TokenValid(users[id], token, now) {
        return Err(InvalidOrExpiredToken);
      }
      var id :| id in users && TokenValid(users[id], token, now);
      var u := users[id];
      u := u.(isVerified := true);
      users := users[id := u];
      assert TokenValid(users[id], token, now);
      r := Ok(());
    }

    /** `verifyEmail` as its comments describe it: the user is verified and
        the token and its expiry are cleared, so the token works once. */
    method VerifyEmailClearing(token: string, now: int) returns (r: Result<()>)
      requires Valid()
      modifies this
      ensures Valid()
      ensures r.Ok? <==> CanVerify(old(users), token, now)
      ensures r.Err? ==> r == Err(InvalidOrExpiredToken) && users == old(users)
      ensures r.Ok? ==> exists id :: && id in old(users) && TokenValid(old(users)[id], token, now)
                                     && users == old(users)[id := old(users)[id].(isVerified := true,
                                                                                  verificationToken := None,
                                                                                  verificationTokenExpires := None)]
      ensures TokenHeldOnce(old(users), token) ==> !CanVerify(users, token, now)
      ensures nextId == old(nextId)
    {
      if !exists id :: id in users && TokenValid(users[id], token, now) {
        return Err(InvalidOrExpiredToken);
      }
      var id :| id in users && TokenValid(users[id], token, now);
      var u := users[id];
      u := u.(isVerified := true);
      u := u.(verificationToken := None);
      u := u.(verificationTokenExpires := None);
      users := users[id := u];
      r := Ok(());
    }
  }

  /** Verifying at `now` and again at a `later` instant before the expiry
      succeeds both times: the first verification leaves the token in place. */
  method VerifyTwice(store: UserStore, token: string, now: int, later: int)
    returns (first: Result<()>, second: Result<()>)
    requires store.Valid() && now <= later
    modifies store
    ensures first.Ok? <==> CanVerify(old(store.users), token, now)
    ensures CanVerify(old(store.users), token, later) ==> first.Ok? && second.Ok?
  {
    first := store.VerifyEmail(token, now);
    second := store.VerifyEmail(token, later);
  }

  /** With the token cleared, a second verification with the same token
      is refused. */
  method VerifyOnce(store: UserStore, token: string, now: int)
    returns (first: Result<()>, second: Result<()>)
    requires store.Valid() && TokenHeldOnce(store.users, token)
    modifies store
    ensures first.Ok? <==> CanVerify(old(store.users), token, now)
    ensures second == Err(InvalidOrExpiredToken)
  {
    first := store.VerifyEmailClearing(token, now);
    second := store.VerifyEmailClearing(token, now);
  }
}
