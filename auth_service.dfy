/**
 * The authentication service (src/auth/auth.service.ts): the users
 * collection, bcrypt hashing and JWT signing.
 *
 * bcrypt and the JWT service are libraries outside the model. They are
 * given to the service as function values; the only property of them the
 * model relies on is `CompareAcceptsOwnHash`. bcrypt's random salt and the
 * clock the JWT library reads are parameters of the operations that use them.
 */
module Service {
  import opened Wrappers

  /**
   * A document of the users collection. The schema calls the second field
   * `password`; what is stored in it is the bcrypt hash.
   */
  datatype User = User(username: string, password: string)

  /** The random salt bcrypt draws on each call. */
  type Salt = nat

  /** The cost factor passed to `bcrypt.hash`. */
  const SaltRounds: nat := 10

  /** The two bcrypt functions the service calls: `hash(plain, rounds)` and `compare(plain, hashed)`. */
  datatype Bcrypt = Bcrypt(hash: (string, nat, Salt) -> string, compare: (string, string) -> bool)

  /** The one law of bcrypt the model relies on: a password matches every hash made of it. */
  ghost predicate CompareAcceptsOwnHash(b: Bcrypt) {
    forall p, rounds, s :: b.compare(p, b.hash(p, rounds, s))
  }

  /** The claims the service signs. */
  datatype Payload = Payload(username: string)

  /** The clock reading, in seconds, that the JWT library records as the token's issue time (`iat`). */
  type Time = nat

  /**
   * `JwtService.signAsync` under the configured secret and expiry, as a
   * function of the claims and the time of signing.
   */
  type Signer = (Payload, Time) -> string

  /** Some document of the collection has this username. */
  predicate HasUser(users: seq<User>, username: string) {
    exists i :: 0 <= i < |users| && users[i].username == username
  }

  /** No two documents share a username. */
  ghost predicate UniqueUsernames(users: seq<User>) {
    forall i, j :: 0 <= i < j < |users| ==> users[i].username != users[j].username
  }

  /**
   * `findOne({ username })`: the first document, in collection order, whose
   * username is the argument, or none when there is no such document.
   */
  function FindFirst(users: seq<User>, username: string): (r: Option<User>)
    ensures r.None? <==> !HasUser(users, username)
    ensures r.Some? ==> r.value.username == username
    ensures r.Some? ==>
              exists i :: 0 <= i < |users| && users[i] == r.value &&
                          forall j :: 0 <= j < i ==> users[j].username != username
  {
    if |users| == 0 then None
    else if users[0].username == username then Some(users[0])
    else
      var r := FindFirst(users[1..], username);
      assert forall i :: 0 < i < |users| ==> users[i] == users[1..][i - 1];
      r
  }

  /** `validateUser`: the stored user, when one has this username and the password matches its hash. */
  function Validate(users: seq<User>, bcrypt: Bcrypt, username: string, password: string): (r: Option<User>)
    ensures !HasUser(users, username) ==> r.None?
    ensures r.Some? <==> HasUser(users, username) && bcrypt.compare(password, FindFirst(users, username).value.password)
    ensures r.Some? ==> r == FindFirst(users, username)
  {
    match FindFirst(users, username)
    case Some(user) => if bcrypt.compare(password, user.password) then Some(user) else None
    case None => None
  }

  /** The usernames that occur in the collection. */
  function Usernames(users: seq<User>): set<string> {
    set u | u in users :: u.username
  }

  /** The collection seen as a table from username to stored hash (the first document wins). */
  function Directory(users: seq<User>): map<string, string> {
    map name | name in Usernames(users) && FindFirst(users, name).Some? :: FindFirst(users, name).value.password
  }

  /** Appending a document leaves every earlier lookup alone and makes its username findable. */
  lemma {:induction false} FindFirstAppend(users: seq<User>, user: User, name: string)
    ensures FindFirst(users + [user], name) ==
      if HasUser(users, name) then FindFirst(users, name)
      else if user.username == name then Some(user)
      else None
  {
    if users == [] {
      assert users + [user] == [user];
      assert [user][1..] == [];
    } else {
      assert (users + [user])[0] == users[0];
      assert (users + [user])[1..] == users[1..] + [user];
      FindFirstAppend(users[1..], user, name);
      if users[0].username != name {
        assert HasUser(users, name) <==> HasUser(users[1..], name) by {
          if HasUser(users, name) {
            var i :| 0 <= i < |users| && users[i].username == name;
            assert users[1..][i - 1] == users[i];
          }
          if HasUser(users[1..], name) {
            var i :| 0 <= i < |users[1..]| && users[1..][i].username == name;
            assert users[i + 1] == users[1..][i];
          }
        }
      }
    }
  }

  /**
   * Inserting a document under an unused username adds exactly that entry
   * to the table and changes no other.
   */
  lemma DirectoryInsert(users: seq<User>, user: User)
    requires !HasUser(users, user.username)
    ensures Directory(users + [user]) == Directory(users)[user.username := user.password]
  {
    var after := users + [user];
    forall name | name in Usernames(after)
      ensures name in Usernames(users) || name == user.username
    {
      var u :| u in after && u.username == name;
      if u != user { assert u in users; }
    }
    forall name
      ensures FindFirst(after, name) ==
        if HasUser(users, name) then FindFirst(users, name)
        else if user.username == name then Some(user)
        else None
    {
      FindFirstAppend(users, user, name);
    }
    assert Usernames(after) == Usernames(users) + {user.username};
  }

  /** The service's state: the users collection and the two libraries it was given. */
  class AuthService {
    /** The users collection, in insertion order. */
    var users: seq<User>
    const bcrypt: Bcrypt
    const jwt: Signer

    constructor(users: seq<User>, bcrypt: Bcrypt, jwt: Signer)
      ensures this.users == users && this.bcrypt == bcrypt && this.jwt == jwt
    {
      this.users := users;
      this.bcrypt := bcrypt;
      this.jwt := jwt;
    }

    /**
     * `createUser`: stores a new document holding the username and the hash
     * of the password (never the password itself); nothing else changes.
     * It does not check that the username is unused.
     */
    method CreateUser(username: string, password: string, salt: Salt) returns (user: User)
      modifies this
      ensures user == User(username, bcrypt.hash(password, SaltRounds, salt))
      ensures users == old(users) + [user]
    {
      var hashedPassword := bcrypt.hash(password, SaltRounds, salt);
      user := User(username, hashedPassword);
      users := users + [user];
    }

    /** `findUserByUsername`: the document with this username, or none; reads only. */
    method FindUserByUsername(username: string) returns (user: Option<User>)
      ensures user == FindFirst(users, username)
      ensures user.Some? <==> HasUser(users, username)
    {
      user := FindFirst(users, username);
    }

    /**
     * `validateUser`: the stored user when it exists and the password matches
     * its hash; none for an unknown username and none for a wrong password.
     */
    method ValidateUser(username: string, password: string) returns (user: Option<User>)
      ensures user == Validate(users, bcrypt, username, password)
      ensures user.Some? ==> user.value.username == username && bcrypt.compare(password, user.value.password)
    {
      var found := FindUserByUsername(username);
      if found.Some? && bcrypt.compare(password, found.value.password) {
        return found;
      }
      return None;
    }

    /**
     * `generateAccessToken`: signs, at time `now`, claims that carry the
     * user's username and nothing else.
     */
    method GenerateAccessToken(user: User, now: Time) returns (token: string)
      ensures token == jwt(Payload(user.username), now)
    {
      var payload := Payload(user.username);
      token := jwt(payload, now);
    }

    /** `logout`: only logs; the collection is unchanged. */
    method Logout(user: User)
      ensures users == old(users)
    {
    }
  }
}
