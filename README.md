# authentication-server, modelled in Dafny

This project models the core of a small NestJS authentication server:

- **Sign-up and sign-in over a users collection** (`src/auth/auth.service.ts`,
  `src/auth/auth.controller.ts`). The collection is a sequence of `User`
  documents in insertion order. Each document holds a username and the bcrypt hash
  of the password. `AuthService` is a class whose `users` field `CreateUser`
  extends. `AuthController.SignUp` checks that the username is unused, then inserts.
  `AuthController.SignIn` only reads the collection. Both handlers are proved against
  the functions `SignUpOutcome` and `SignInOutcome`, and the workflow lemmas are
  stated over those functions.
- **The password policy and the sign-up body's constraints** (`src/auth/dto/signup.dto.ts`).
  The password pattern is modelled construct by construct, including what `.` does not
  match inside the lookaheads. It is proved equal to the plain reading: allowed characters
  only, at least eight of them, and at least one letter, one digit and one symbol.
  The body's constraints produce the validation-error tree that the validation pipe
  flattens (`src/main.ts:26-28`).
- **The flattening of validation errors** (`src/utils/error/format-error.util.ts`).
  `Format` and `Contribution` turn a tree of `VErr` nodes into a list of `Msg`.
  A `Msg` is a string or the empty object `{}`. Dafny's termination check accepts the
  recursion because it only descends into `children`.

bcrypt and the JWT service are libraries outside the model. They are passed in as
function values: `Bcrypt(hash, compare)` and a `Signer` from claims and an issue time to
a token. The only law the model assumes of them is `CompareAcceptsOwnHash`, i.e.
`compare(p, hash(p, rounds, salt))`. Lemmas that need it take it as a precondition.
bcrypt's random salt and the clock reading the JWT library stores as the token's issue
time (`iat`) are parameters of the operations that use them. The JWT secret and the
expiry are folded into the `Signer`.

Facts about the modelled code that shape the model:

- Users are looked up and kept unique by username (src/auth/auth.service.ts:23-25,
  src/auth/auth.controller.ts:18-21).
- A taken username is refused with `UnauthorizedException('Username already exists')`
  (src/auth/auth.controller.ts:20).
- The token's claims are `{ username }` (src/auth/auth.service.ts:36).
- The modelled files handle no storage errors: a failing `findOne` or `save()` would
  propagate as a rejected promise.
- Tokens are verified only by the passport guard `AuthGuard('jwt')` on `logout`
  (src/auth/auth.controller.ts:38); that verification is outside the model.
- The modelled `signUp` handler declares its body as an inline `{ username; password }`
  type (src/auth/auth.controller.ts:16), so the global validation pipe
  (src/main.ts:18-29) does not apply the `SignUpDto` constraints to it; only
  `src/auth/controller/auth.controller.ts:21` binds `SignUpDto`. Accordingly
  `Controller.AuthController.SignUp` accepts any password; the password policy is
  modelled on its own, with the validation errors it produces.

## Model

| member | source | states |
|---|---|---|
| `Service.FindFirst` | src/auth/auth.service.ts:23-25 | `findOne({ username })` yields none exactly when no document has the username. Otherwise it yields a document with that username, and no earlier document has it. |
| `Service.Validate` | src/auth/auth.service.ts:27-33 | `validateUser` yields the stored user exactly when one has the username and `compare(password, stored hash)` holds. It yields none for an unknown username. |
| `Service.FindFirstAppend` | src/auth/auth.service.ts:17-25 | After a document is appended, every lookup that already succeeded returns the same document. The new username becomes findable, and other lookups still fail. |
| `Service.DirectoryInsert` | src/auth/auth.service.ts:17-21 | Seen as a table from username to stored hash, inserting under an unused username adds exactly that entry and changes no other. |
| `Service.AuthService.CreateUser` | src/auth/auth.service.ts:17-21 | Stores one new document holding the username and `hash(password, 10, salt)`, not the password. Earlier documents are unchanged. |
| `Service.AuthService.FindUserByUsername` | src/auth/auth.service.ts:23-25 | Returns the first document with the username, or none exactly when there is none. It changes nothing. |
| `Service.AuthService.ValidateUser` | src/auth/auth.service.ts:27-33 | Returns a user only if its username is the argument and `compare` accepts the password against its hash. In every other case it returns none. |
| `Service.AuthService.GenerateAccessToken` | src/auth/auth.service.ts:35-38 | The token is the signature, at the given time, of claims holding the user's username and nothing else. |
| `Service.AuthService.Logout` | src/auth/auth.service.ts:40-43 | The collection is unchanged. |
| `Controller.AuthController.SignUp` | src/auth/auth.controller.ts:15-25 | A taken username gives `Unauthorized("Username already exists")` and leaves the collection unchanged. Otherwise exactly the new user is appended and `{ accessToken }` is signed for its username at the time of the request. |
| `Controller.AuthController.SignIn` | src/auth/auth.controller.ts:27-36 | Reads only. It returns `{ accessToken }` for the validated user, and every failure is `Unauthorized("Invalid username or password")`. |
| `Controller.SignUpKeepsUsernamesUnique` | src/auth/auth.controller.ts:18-22 | If no two documents share a username before a sign-up, none do after it. |
| `Controller.RunKeepsUsernamesUnique` | src/auth/auth.controller.ts:18-22 | Any sequence of sign-ups, started from a collection with unique usernames, keeps them unique. |
| `Controller.SignUpKeepsUsers` | src/auth/auth.controller.ts:18-22 | A sign-up never removes a registered username. |
| `Controller.RunRegistersEveryUsername` | src/auth/auth.controller.ts:18-22 | After a run of sign-ups, every username requested in it or registered before it is registered. |
| `Controller.SignUpThenSignIn` | src/auth/auth.controller.ts:15-36 | Given `compare(p, hash(p))`, a successful `signUp(u, p)` followed by `signIn(u, p)` at any time succeeds, with a token signed for `u` at the time of the sign-in. |
| `Controller.SignUpLeavesOtherSignIns` | src/auth/auth.controller.ts:22-30 | A sign-up does not change the answer to any other username's sign-in, whatever password is tried. |
| `Controller.SignInSucceedsIff` | src/auth/auth.controller.ts:30-35 | Sign-in succeeds exactly when the user exists and the password matches its hash. The token is then signed for that username. Every failure is the one invalid-credentials error. |
| `Controller.UnknownUserLikeWrongPassword` | src/auth/auth.service.ts:28-32 | Signing in with an unknown username gives the same answer as signing in with a wrong password for a known one, whenever each is tried. |
| `Controller.SignUpDirectory` | src/auth/auth.controller.ts:18-22 | Seen as a table from username to hash, a successful sign-up adds exactly `username ↦ hash(password)`. A refused one leaves the table as it was. |
| `Dto.PatternIsPolicy` | src/auth/dto/signup.dto.ts:17 | The pattern accepts a string exactly when its characters are all in `A-Z a-z 0-9 @$!%*#?&` and it has at least 8 of them, including a letter, a digit and a symbol. |
| `Dto.ForeignCharacterRejected` | src/auth/dto/signup.dto.ts:17 | Any character outside the allowed set makes the password fail. |
| `Dto.ShortPasswordRejected` | src/auth/dto/signup.dto.ts:17 | A password shorter than 8 characters fails. |
| `Dto.PassingPasswordHasEachClass` | src/auth/dto/signup.dto.ts:17 | A passing password holds at least one letter, one digit and one symbol. |
| `Dto.AppendAllowedKeepsPassing` | src/auth/dto/signup.dto.ts:17 | Appending an allowed character to a passing password keeps it passing. |
| `Dto.TestFixturePasses` | src/auth/auth.service.spec.ts:37 | The password `Test@1234` used by the tests as a valid sign-up password passes the pattern. |
| `Dto.SignUpErrorsReported` | src/auth/dto/signup.dto.ts:4-23 | The messages reported for a sign-up body are the messages of every violated constraint, property by property. There are none exactly when username, e-mail and password are non-empty, the e-mail passes `isEmail` and the password passes the pattern. |
| `FormatError.FormatAppend` | src/utils/error/format-error.util.ts:6-7 | Flattening a concatenation of error lists is the concatenation of their flattenings. |
| `FormatError.FormatIsConcatenation` | src/utils/error/format-error.util.ts:6-7 | The output equals the independent `Flatten` of the list of each node's contribution, taken in input order. An empty input gives an empty output. |
| `FormatError.ConstraintsReported` | src/utils/error/format-error.util.ts:11-13 | A node with a constraints record contributes exactly its messages, in order, and its children are ignored. |
| `FormatError.EmptyConstraintsSilent` | src/utils/error/format-error.util.ts:11-12 | A present but empty constraints record contributes nothing, even when the node has children. |
| `FormatError.NestedReported` | src/utils/error/format-error.util.ts:15-19 | A node without constraints but with children contributes one message per child message, in order. Each is prefixed `Invalid nested attribute <property>. `. |
| `FormatError.BareNodeIsEmptyRecord` | src/utils/error/format-error.util.ts:9-22 | A node with neither constraints nor children contributes exactly one empty object. |
| `FormatError.ChainPrefixes` | src/utils/error/format-error.util.ts:15-19 | A constraint message at nesting depth d carries d prefixes, outermost property first. |

## Left out

- Concurrency: the `await`s are flattened and requests run one after another. The race between the existence check and the insert in `signUp` is not modelled.
- bcrypt's salting, cost factor and constant-time comparison, and JWT signing, expiry and verification. These are libraries, kept as function values with only the law `compare(p, hash(p, rounds, salt))`. The signer sees the issue time but nothing is assumed about how the token depends on it.
- Service.AuthService.CreateUser: states that the stored value is bcrypt's output for the password. It does not state that this differs from the password, because bcrypt is abstract here.
- Database failures and `findOne`'s order: the collection is a sequence, `save()` always succeeds, and `findOne` returns the first matching document in insertion order.
- The controller's `logout` handler (src/auth/auth.controller.ts:38-44): its line 41 is incomplete, and the service call it makes only logs.
- `@IsEmail` is class-validator's check and is a parameter `isEmail`. `@IsString` always holds because every field is a string in the model. Missing or non-string fields and the pipe's whitelist options are not modelled.
- Dto.SignUpErrorsReported: lists a property's failed constraints in declaration order. The order of the keys in class-validator's `constraints` record is the library's and is not reproduced.
- Unicode: without the `u` flag the pattern runs over UTF-16 code units, while the model runs over characters. The two readings differ only on characters outside the allowed set, which fail either way.
- Logging, Swagger, the exception filter, module wiring and server bootstrap (`src/main.ts`, `src/app.module.ts`, `src/filters/all-exceptions.filter.ts`).
- `src/auth/controller/auth.controller.ts` delegates to a `../service/auth.service` that is not part of this model, so neither it nor its tests are modelled.
