/**
 * The sign-up and sign-in handlers (src/auth/auth.controller.ts) over the
 * authentication service, and what a sequence of requests does to the users
 * collection. Requests are handled one after another: the `await`s are
 * flattened, so the gap between the existence check and the insert is not
 * modelled.
 */
module Controller {
  import opened Wrappers
  import opened Service

  /** `UnauthorizedException` with its message. */
  datatype AuthError = Unauthorized(message: string)

  /** The message of a sign-up whose username is taken. */
  const UsernameExists: string := "Username already exists"

  /** The one message of every failed sign-in. */
  const InvalidCredentials: string := "Invalid username or password"

  /** The response body `{ accessToken }`. */
  datatype TokenReply = TokenReply(accessToken: string)

  /** A handler either answers with a token or throws. */
  type Reply = Result<TokenReply, AuthError>

  /** The answer of a sign-up and the collection after it. */
  datatype SignUpStep = SignUpStep(reply: Reply, users: seq<User>)

  /** The sign-up handler as a function of the collection before the request. */
  function SignUpOutcome(users: seq<User>, bcrypt: Bcrypt, jwt: Signer,
                         username: string, password: string, salt: Salt, now: Time): SignUpStep
  {
    if HasUser(users, username) then
      SignUpStep(Failure(Unauthorized(UsernameExists)), users)
    else
      var user := User(username, bcrypt.hash(password, SaltRounds, salt));
      SignUpStep(Success(TokenReply(jwt(Payload(user.username), now))), users + [user])
  }

  /** The sign-in handler as a function of the collection. */
  function SignInOutcome(users: seq<User>, bcrypt: Bcrypt, jwt: Signer,
                         username: string, password: string, now: Time): Reply
  {
    match Validate(users, bcrypt, username, password)
    case None => Failure(Unauthorized(InvalidCredentials))
    case Some(user) => Success(TokenReply(jwt(Payload(user.username), now)))
  }

  /** One sign-up request body, with the salt bcrypt will draw for it and the time it is handled. */
  datatype SignUpRequest = SignUpRequest(username: string, password: string, salt: Salt, at: Time)

  /** The collection after a sequence of sign-up requests handled one after another. */
  function RunSignUps(users: seq<User>, bcrypt: Bcrypt, jwt: Signer, requests: seq<SignUpRequest>): seq<User>
    decreases |requests|
  {
    if requests == [] then users
    else
      var r := requests[0];
      RunSignUps(SignUpOutcome(users, bcrypt, jwt, r.username, r.password, r.salt, r.at).users,
                 bcrypt, jwt, requests[1..])
  }

  /** A sign-up that succeeds inserts one document whose username was unused, so uniqueness is kept. */
  lemma SignUpKeepsUsernamesUnique(users: seq<User>, bcrypt: Bcrypt, jwt: Signer,
                                   username: string, password: string, salt: Salt, now: Time)
    requires UniqueUsernames(users)
    ensures UniqueUsernames(SignUpOutcome(users, bcrypt, jwt, username, password, salt, now).users)
  {
    var after := SignUpOutcome(users, bcrypt, jwt, username, password, salt, now).users;
    if !HasUser(users, username) {
      forall i, j | 0 <= i < j < |after|
        ensures after[i].username != after[j].username
      {
        if j == |users| {
          assert after[i] == users[i];
        }
      }
    }
  }

  /** Starting from a collection with unique usernames, any run of sign-ups keeps them unique. */
  lemma {:induction false} RunKeepsUsernamesUnique(users: seq<User>, bcrypt: Bcrypt, jwt: Signer,
                                                   requests: seq<SignUpRequest>)
    requires UniqueUsernames(users)
    ensures UniqueUsernames(RunSignUps(users, bcrypt, jwt, requests))
    decreases |requests|
  {
    if requests != [] {
      var r := requests[0];
      SignUpKeepsUsernamesUnique(users, bcrypt, jwt, r.username, r.password, r.salt, r.at);
      RunKeepsUsernamesUnique(SignUpOutcome(users, bcrypt, jwt, r.username, r.password, r.salt, r.at).users,
                              bcrypt, jwt, requests[1..]);
    }
  }

  /** A sign-up never removes a document: every username present before is present after. */
  lemma SignUpKeepsUsers(users: seq<User>, bcrypt: Bcrypt, jwt: Signer,
                         username: string, password: string, salt: Salt, now: Time, name: string)
    requires HasUser(users, name)
    ensures HasUser(SignUpOutcome(users, bcrypt, jwt, username, password, salt, now).users, name)
  {
    var after := SignUpOutcome(users, bcrypt, jwt, username, password, salt, now).users;
    var i :| 0 <= i < |users| && users[i].username == name;
    assert after[i] == users[i];
  }

  /**
   * After a run of sign-ups every requested username is registered, whether
   * its own request inserted it or it was already taken, and every username
   * registered before still is.
   */
  lemma {:induction false} RunRegistersEveryUsername(users: seq<User>, bcrypt: Bcrypt, jwt: Signer,
                                                     requests: seq<SignUpRequest>, name: string)
    requires HasUser(users, name) || exists k :: 0 <= k < |requests| && requests[k].username == name
    ensures HasUser(RunSignUps(users, bcrypt, jwt, requests), name)
    decreases |requests|
  {
    if requests != [] {
      var r := requests[0];
      var next := SignUpOutcome(users, bcrypt, jwt, r.username, r.password, r.salt, r.at).users;
      if HasUser(users, name) {
        SignUpKeepsUsers(users, bcrypt, jwt, r.username, r.password, r.salt, r.at, name);
      } else if r.username == name {
        assert next[|users|].username == name;
      } else {
        var k :| 0 <= k < |requests| && requests[k].username == name;
        assert requests[1..][k - 1] == requests[k];
      }
      RunRegistersEveryUsername(next, bcrypt, jwt, requests[1..], name);
    }
  }

  /**
   * With bcrypt's law, a sign-up that succeeds is followed by a sign-in with
   * the same username and password, at any later time, that succeeds with a
   * token signed for that username at the time of the sign-in.
   */
  lemma SignUpThenSignIn(users: seq<User>, bcrypt: Bcrypt, jwt: Signer,
                         username: string, password: string, salt: Salt, signedUpAt: Time, signInAt: Time)
    requires CompareAcceptsOwnHash(bcrypt)
    requires SignUpOutcome(users, bcrypt, jwt, username, password, salt, signedUpAt).reply.Success?
    ensures var step := SignUpOutcome(users, bcrypt, jwt, username, password, salt, signedUpAt);
            SignInOutcome(step.users, bcrypt, jwt, username, password, signInAt) ==
            Success(TokenReply(jwt(Payload(username), signInAt)))
  {
    var user := User(username, bcrypt.hash(password, SaltRounds, salt));
    FindFirstAppend(users, user, username);
    assert bcrypt.compare(password, user.password);
  }

  /** A sign-up changes no other user's sign-in, whatever password is tried. */
  lemma SignUpLeavesOtherSignIns(users: seq<User>, bcrypt: Bcrypt, jwt: Signer,
                                 username: string, password: string, salt: Salt, signedUpAt: Time,
                                 other: string, attempt: string, now: Time)
    requires other != username
    ensures var after := SignUpOutcome(users, bcrypt, jwt, username, password, salt, signedUpAt).users;
            SignInOutcome(after, bcrypt, jwt, other, attempt, now) == SignInOutcome(users, bcrypt, jwt, other, attempt, now)
  {
    FindFirstAppend(users, User(username, bcrypt.hash(password, SaltRounds, salt)), other);
  }

  /**
   * A sign-in succeeds exactly when a user has the username and the password
   * matches its stored hash; the token is then signed for that username.
   * Every failure carries the same error.
   */
  lemma SignInSucceedsIff(users: seq<User>, bcrypt: Bcrypt, jwt: Signer, username: string, password: string, now: Time)
    ensures SignInOutcome(users, bcrypt, jwt, username, password, now).Success? <==>
            HasUser(users, username) && bcrypt.compare(password, FindFirst(users, username).value.password)
    ensures SignInOutcome(users, bcrypt, jwt, username, password, now).Success? ==>
            SignInOutcome(users, bcrypt, jwt, username, password, now).value == TokenReply(jwt(Payload(username), now))
    ensures SignInOutcome(users, bcrypt, jwt, username, password, now).Failure? ==>
            SignInOutcome(users, bcrypt, jwt, username, password, now).error == Unauthorized(InvalidCredentials)
  {
  }

  /**
   * An unknown username and a wrong password for a known one give the very
   * same answer, whenever each is tried, so a caller cannot tell which
   * usernames exist.
   */
  lemma UnknownUserLikeWrongPassword(users: seq<User>, bcrypt: Bcrypt, jwt: Signer,
                                     unknown: string, guess: string, t1: Time,
                                     known: string, wrong: string, t2: Time)
    requires !HasUser(users, unknown)
    requires HasUser(users, known) && !bcrypt.compare(wrong, FindFirst(users, known).value.password)
    ensures SignInOutcome(users, bcrypt, jwt, unknown, guess, t1) == SignInOutcome(users, bcrypt, jwt, known, wrong, t2)
    ensures SignInOutcome(users, bcrypt, jwt, unknown, guess, t1) == Failure(Unauthorized(InvalidCredentials))
  {
  }

  /**
   * Seen as a table from username to stored hash, a successful sign-up adds
   * exactly one entry and a refused one changes nothing.
   */
  lemma SignUpDirectory(users: seq<User>, bcrypt: Bcrypt, jwt: Signer,
                        username: string, password: string, salt: Salt, now: Time)
    ensures var step := SignUpOutcome(users, bcrypt, jwt, username, password, salt, now);
            Directory(step.users) ==
              if step.reply.Success? then Directory(users)[username := bcrypt.hash(password, SaltRounds, salt)]
              else Directory(users)
  {
    if !HasUser(users, username) {
      DirectoryInsert(users, User(username, bcrypt.hash(password, SaltRounds, salt)));
    }
  }

  /** The controller; it reaches the collection only through the service. */
  class AuthController {
    const authService: AuthService

    constructor(authService: AuthService)
      ensures this.authService == authService
    {
      this.authService := authService;
    }

    /**
     * `signUp`: a taken username is refused and nothing changes; otherwise
     * exactly one document is inserted and a token for it is returned.
     */
    method SignUp(username: string, password: string, salt: Salt, now: Time) returns (reply: Reply)
      modifies authService
      ensures SignUpStep(reply, authService.users) ==
              SignUpOutcome(old(authService.users), authService.bcrypt, authService.jwt, username, password, salt, now)
      ensures HasUser(old(authService.users), username) ==>
              reply == Failure(Unauthorized(UsernameExists)) && authService.users == old(authService.users)
      ensures !HasUser(old(authService.users), username) ==>
              authService.users == old(authService.users) + [User(username, authService.bcrypt.hash(password, SaltRounds, salt))] &&
              reply == Success(TokenReply(authService.jwt(Payload(username), now)))
    {
      var existingUser := authService.FindUserByUsername(username);
      if existingUser.Some? {
        return Failure(Unauthorized(UsernameExists));
      }
      var user := authService.CreateUser(username, password, salt);
      var accessToken := authService.GenerateAccessToken(user, now);
      return Success(TokenReply(accessToken));
    }

    /** `signIn`: reads only; a token for the validated user, or the one uniform error. */
    method SignIn(username: string, password: string, now: Time) returns (reply: Reply)
      ensures reply == SignInOutcome(authService.users, authService.bcrypt, authService.jwt, username, password, now)
      ensures reply.Failure? ==> reply.error == Unauthorized(InvalidCredentials)
    {
      var user := authService.ValidateUser(username, password);
      if user.None? {
        return Failure(Unauthorized(InvalidCredentials));
      }
      var accessToken := authService.GenerateAccessToken(user.value, now);
      return Success(TokenReply(accessToken));
    }
  }
}
