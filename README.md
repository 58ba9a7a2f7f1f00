# Animal Hotels: the request contract and the client's session state

Animal Hotels is a pet-boarding app. Tutors (pet owners) register, log in and
keep a list of their animals. This project models its two pieces of real
behaviour and proves properties about them.

**The backend's request contract** comes from `backend/server.ts`. It covers
the authentication middleware and the eight route handlers, working on the
tutor and animal tables.

- `Store` holds the tables as sequences in storage order. It also holds the
  database constraints the model assumes (unique ids, unique tutor emails,
  every animal's owner is a tutor; see "## Left out") and the table operations the handlers use (`findMany`,
  `deleteMany`, `update`, `delete`, `findFirst`).
- `Middleware` models the middleware. It reads the `Authorization` header and
  takes its second space-separated piece, as JavaScript's `split(' ')` does. It
  checks that token and writes the caller's id into the `user-id` header.
- `Jwt` models token signing. `Sign(id, name)` issues a token, and `Verify`
  returns the id claim. The lemma `Verify(Sign(id, name)) == Some(id)` is
  proved, not assumed. It holds because `Sign` is a concrete reversible
  encoding with no space in it (`Codec`, which uses `Strings`).
- `Routes` states each handler as a pure function from the tables and the
  request to the new tables and the response, and proves properties that
  span several requests.
- `Backend.Server` is a class holding both tables. Each handler is a method
  that changes the tables in place in the same steps as the server, and
  each is proved equal to its `Routes` function.

**The client's authentication state** comes from
`frontend/src/context/AuthContext.tsx`.

- `AuthContext.Reduce` is the two-action reducer over
  `{user, token, isAuthenticated}`.
- `AuthContext.AuthProvider` is a class holding that state and the browser's
  local storage as a string map. Its methods are the startup restore,
  `login` and `logout`, and each keeps storage and state in step.

Responses are `Reply(status, body)`. When the database rejects a write,
the response is `Rejected(cause)` and the tables are unchanged. The
handlers do not catch that rejection themselves; what the client then sees
is up to the web framework (see "## Left out"). The error kinds map to the
server's messages like this:

- `TokenMissing`: "Token não fornecido"
- `TokenInvalid`: "Token inválido"
- `EmailTaken`: "Email já cadastrado."
- `InvalidLogin`: "Email ou senha inválidos"
- `Updated`: "Atualizado"

The intended design scopes every animal operation to its owner and never echoes a password. Where the code does otherwise, the model follows the code:

- `PUT /animals/:id` and `DELETE /animals/:id` look the animal up by id only.
  Any authenticated caller can change or delete any tutor's animal
  (`Routes.UpdateIgnoresOwner`, `Routes.DeleteIgnoresOwner`). A missing id is
  not a 404: the database rejects it (`Rejected`), and no handler reply is written.
- `PUT /tutors` replies with the whole updated row, password included
  (`Routes.UpdateProfile` returns `TutorRecord`). The code has no email-conflict
  check. The database's unique constraint rejects the write instead (`Rejected`).
- Login compares the plaintext password.
- `POST /animals` by a caller whose account was deleted, but whose token is
  still valid, breaks the owner foreign key the model assumes. The database
  rejects it.

## Model

| member | source | states |
|---|---|---|
| `Strings.Split` | backend/server.ts:19 | JavaScript `split(' ')`: at least one piece and no piece containing the separator; `Strings.JoinSplit` and `Strings.SplitJoin` prove it inverse to joining |
| `Strings.SplitHasSecondPiece` | backend/server.ts:19 | the header has a second piece exactly when it contains a space |
| `Middleware.BearerToken` | backend/server.ts:19 | the token taken from the header never contains a space |
| `Middleware.Authenticate` | backend/server.ts:15-28 | 401 "missing" exactly when the header is absent or empty; let through exactly when the header's second piece verifies, whatever the scheme and whatever follows; on success the handler sees the same headers with only `user-id` set, to the id the header's token verifies as |
| `Middleware.CallerOf` | backend/server.ts:22-23 | the caller id the handler reads is the id the token verified as; a refusal carries the middleware's reason |
| `Middleware.BearerTokenPresent` | backend/server.ts:19 | a header yields a token if and only if it contains a space |
| `Middleware.BearerTokenOf` | backend/server.ts:19 | `<scheme> <token>` with no space in either part yields exactly `<token>` |
| `Middleware.IssuedTokenAuthenticates` | backend/server.ts:16-24 | `Bearer <token issued for id>` is let through as `id`, and a `user-id` header sent by the client is overwritten |
| `Middleware.SchemeOnlyIsInvalid` | backend/server.ts:19-26 | a non-empty header with no second piece is refused as an invalid token |
| `Jwt.Sign` | backend/server.ts:64 | an issued token contains no space, so it survives the header split |
| `Jwt.VerifySign` | backend/server.ts:22 | verifying a token issued for `id` and `name` yields `id` |
| `Jwt.Verify` | backend/server.ts:22 | `jwt.verify`: every token that verifies is the token issued for the id it yields, under some name; `Jwt.VerifySign` is the other direction |
| `Jwt.VerifyRejectsEmpty` | backend/server.ts:19-26 | the empty piece that `"Bearer "` splits into does not verify |
| `Store.FindMany` | backend/server.ts:73 | `findMany` by a where-clause returns exactly the matching rows, each as many times as it occurs in the table |
| `Store.FindManyNone` | backend/server.ts:73 | a clause that no row matches finds nothing |
| `Store.DeleteMany` | backend/server.ts:119 | after `deleteMany` the table holds exactly the rows that do not match |
| `Store.FindAndDeletePartition` | backend/server.ts:119 | the rows `deleteMany` removes are, as a multiset, exactly the rows `findMany` with the same clause returns |
| `Store.FindManyAfterDeleteMany` | backend/server.ts:119 | deleting one owner's animals leaves every other owner's list identical, order included |
| `Store.DeleteManyKeepsDistinct` | backend/server.ts:105 | deleting animals keeps animal ids unique |
| `Store.UpdateAnimalRow` | backend/server.ts:94-97 | the row with the id gets the new name, species, breed and age and keeps its id and owner; every other row is unchanged |
| `Store.UpdateTutorRow` | backend/server.ts:113 | the caller's row gets the new name, email and phone and keeps its id and password; every other row is unchanged |
| `Store.UpdateTutorRowKeepsValid` | backend/server.ts:113 | a profile edit whose email no other tutor has keeps all database constraints |
| `Store.DeleteTutorRow` | backend/server.ts:120 | after the delete the tutor table holds exactly the tutors with another id |
| `Store.DeleteTutorRowKeepsDistinct` | backend/server.ts:120 | deleting a tutor keeps tutor ids and emails unique |
| `Store.TutorByIdAfterUpdate` | backend/server.ts:113 | the row read back after the update has the new name, email and phone and the password of the row it replaced |
| `Store.TutorById` | backend/server.ts:113 | finds a row with the id if and only if the id is in the table |
| `Store.FindLogin` | backend/server.ts:56-58 | `findFirst` by email and password finds a tutor with both, and finds none only when no tutor has both |
| `Store.UniqueEmail` | backend/server.ts:37-40 | under the unique-email constraint, two tutors with the same email are the same tutor |
| `Routes.Register` | backend/server.ts:33-50 | a taken email gives 400 and no change; otherwise exactly one tutor is appended with the given fields, the reply is 201 with id, name and email only, animals are untouched, and the constraints are kept |
| `Routes.Login` | backend/server.ts:53-66 | 401 if and only if no tutor has both the email and the password; otherwise 200 with that tutor's summary and a token issued for its id and name |
| `Routes.ListMyAnimals` | backend/server.ts:71-75 | 401 with the middleware's reason when refused; otherwise 200 with exactly the animals whose owner is the caller, each as many times as it occurs in the table (once, since ids are unique) |
| `Routes.CreateAnimal` | backend/server.ts:78-87 | 401 and no change when refused; otherwise exactly one animal is appended whose owner is the caller, and tutors are untouched. The write is rejected with no change when the caller is no longer a tutor. Constraints are kept |
| `Routes.UpdateAnimal` | backend/server.ts:90-100 | 401 and no change when refused; a missing id is rejected with no change; otherwise only that animal's name, species, breed and age change, and its owner is kept. The caller is not consulted |
| `Routes.DeleteAnimal` | backend/server.ts:103-107 | 401 and no change when refused; a missing id is rejected with no change; otherwise 204, and only the animal with that id is gone. The caller is not consulted |
| `Routes.UpdateProfile` | backend/server.ts:110-115 | 401 and no change when refused; a missing caller or an email another tutor has is rejected with no change; a caller who is a tutor, with an email no other tutor has, gets 200 with exactly its updated row (new name, email and phone, old password), and only that row changes; a 200 happens only then |
| `Routes.DeleteAccount` | backend/server.ts:117-122 | 401 and no change when refused; otherwise no animal of the caller and no tutor with the caller's id remain, all other tutors and animals stay, and the constraints are kept |
| `Routes.RegisterTwice` | backend/server.ts:37-40 | registering the same email twice: the second attempt gets 400 and changes nothing |
| `Routes.LoginAfterRegister` | backend/server.ts:42-65 | a newly registered tutor logs in with its email and password and gets a session for its new id |
| `Routes.LoginTokenAuthenticates` | backend/server.ts:64 | the token from a successful login, sent as `Bearer <token>`, authenticates as that tutor |
| `Routes.LoginAfterEmailChange` | backend/server.ts:110-115 | after a profile edit the tutor logs in with the new email and the old password, and no longer with the old email |
| `Routes.CreatedAnimalIsListed` | backend/server.ts:78-87 | an animal the caller creates appears in the caller's list afterwards |
| `Routes.DeleteIgnoresOwner` | backend/server.ts:103-107 | any authenticated caller deletes another tutor's animal with 204 |
| `Routes.UpdateIgnoresOwner` | backend/server.ts:90-100 | any authenticated caller rewrites another tutor's animal, keeping its owner |
| `Routes.DeleteAccountCascades` | backend/server.ts:117-122 | after account deletion, listing with the same token gives an empty list; every other caller's list is unchanged |
| `Backend.Server.constructor` | backend/server.ts:10 | the server starts over whatever tables the database holds, provided they meet the constraints |
| `Backend.Server.Register` | backend/server.ts:33-50 | the in-place handler ends in the tables and reply of `Routes.Register`, keeps the constraints and leaves animals alone |
| `Backend.Server.Login` | backend/server.ts:53-66 | returns the `Routes.Login` reply: 200 if and only if some tutor has both the email and the password |
| `Backend.Server.ListMyAnimals` | backend/server.ts:71-75 | returns the `Routes.ListMyAnimals` reply |
| `Backend.Server.CreateAnimal` | backend/server.ts:78-87 | ends in the tables and reply of `Routes.CreateAnimal`, keeps the constraints and leaves tutors alone |
| `Backend.Server.UpdateAnimal` | backend/server.ts:90-100 | ends in the tables and reply of `Routes.UpdateAnimal`, keeps the constraints and leaves tutors alone |
| `Backend.Server.DeleteAnimal` | backend/server.ts:103-107 | ends in the tables and reply of `Routes.DeleteAnimal`, keeps the constraints and leaves tutors alone |
| `Backend.Server.UpdateProfile` | backend/server.ts:110-115 | ends in the tables and reply of `Routes.UpdateProfile`, keeps the constraints and leaves animals alone |
| `Backend.Server.DeleteAccount` | backend/server.ts:117-122 | deletes the caller's animals, then the caller; ends in the tables and reply of `Routes.DeleteAccount` and keeps the constraints |
| `AuthContext.Reduce` | frontend/src/context/AuthContext.tsx:30-47 | LOGIN yields an authenticated state with the payload's user and token, whatever came before; LOGOUT yields the initial state; any other action changes nothing; consistency is preserved |
| `AuthContext.LogoutIdempotent` | frontend/src/context/AuthContext.tsx:38-43 | LOGOUT twice is LOGOUT once |
| `AuthContext.LastEffective` | frontend/src/context/AuthContext.tsx:30-47 | picks the LOGIN or LOGOUT at a position after which every action is unrecognised, that is the last one, and none exactly when every action is unrecognised |
| `AuthContext.RunKeepsConsistent` | frontend/src/context/AuthContext.tsx:23-47 | from a consistent state (such as the initial one), every sequence of dispatches keeps "authenticated if and only if a token (and a user) is held" |
| `AuthContext.RunFollowsLastEffective` | frontend/src/context/AuthContext.tsx:30-47 | the state after any sequence of dispatches is what its last LOGIN or LOGOUT alone produces, or the start state if there is none |
| `AuthContext.Stringify` | frontend/src/context/AuthContext.tsx:86 | the stored user is never the empty string, which would read as absent, and parses back to the same user |
| `AuthContext.Parse` | frontend/src/context/AuthContext.tsx:69 | every text that parses is the stored form of the user it parses to (of the model's encoding, see "## Left out") |
| `AuthContext.GetItem` | frontend/src/context/AuthContext.tsx:63-64 | `getItem` is absent exactly for a key not in storage, and otherwise the stored value |
| `AuthContext.Persist` | frontend/src/context/AuthContext.tsx:85-86 | the two `setItem` calls: afterwards the token and the stored user are held under their keys, the key set grows by at most those two, and every other item is unchanged |
| `AuthContext.ReadSession` | frontend/src/context/AuthContext.tsx:62-71 | finds nothing if and only if the token or the user item is missing or empty; a found session is exactly the stored token and user |
| `AuthContext.PersistThenRead` | frontend/src/context/AuthContext.tsx:84-86 | what a successful login saves, with a non-empty token, is found again on reload |
| `AuthContext.ClearedReadsNothing` | frontend/src/context/AuthContext.tsx:97-99 | after logout's two removals, reload finds nothing |
| `AuthContext.ReloadRebuildsState` | frontend/src/context/AuthContext.tsx:62-71 | storage that mirrors a signed-in state with a non-empty token rebuilds exactly that state on reload |
| `AuthContext.AuthProvider.constructor` | frontend/src/context/AuthContext.tsx:59 | the provider starts in the initial state over whatever storage holds |
| `AuthContext.AuthProvider.Dispatch` | frontend/src/context/AuthContext.tsx:59 | dispatch replaces the state by the reducer's result and touches nothing else |
| `AuthContext.AuthProvider.RestoreSession` | frontend/src/context/AuthContext.tsx:62-72 | signs in with the stored token and user only when both are present and non-empty; otherwise the state is unchanged; storage is never changed; state and storage stay in step |
| `AuthContext.AuthProvider.Login` | frontend/src/context/AuthContext.tsx:74-95 | on success writes both items, then the state carries that same user and token; on failure changes neither and reports failure |
| `AuthContext.AuthProvider.Logout` | frontend/src/context/AuthContext.tsx:97-101 | both items are removed, all other items stay, and the state is the initial state |

## Left out

- Signing keys, signature checking and the one-hour expiry (backend/server.ts:12, 22, 64). `Jwt` is a reversible encoding, so the model does not capture forgery resistance or expiry.
- JSON encoding. `JSON.stringify`/`JSON.parse` of the stored user is the same reversible encoding over the user's three fields. For a stored value that makes `JSON.parse` throw, the source lets the exception escape the mount effect (AuthContext.tsx:69) with no error boundary to catch it; the model puts the result `MalformedUser` in place of that throw and carries on with the state unchanged.
- AuthContext.ReadSession and AuthContext.AuthProvider.RestoreSession: do not model stored text that `JSON.parse` accepts but that is not a user (`"null"`, `"42"`, `"{}"`). The source dispatches LOGIN with that value (AuthContext.tsx:66-70), so `"null"` gives an authenticated state whose user is `null`; the model treats all such text as `MalformedUser` and leaves the state unchanged. "A user is held exactly when signed in" (`Consistent`, `AuthProvider.Valid`) therefore holds only for the model's stricter encoding. For the same reason, AuthContext.Parse: every parseable text being the canonical stored form is a property of that encoding, not of JSON, which allows other key orders and whitespace.
- What the client sees when the database rejects a write. The handlers do not catch the rejected Prisma promise; depending on the Express version this is a 500 from the framework's error handler or an unhandled rejection that stops the process. The framework version is not part of this model, so a rejected write is modelled only as `Rejected(cause)` with the tables unchanged, and later requests are modelled as served normally.
- Network I/O. The frontend `login` gets the request's outcome as a parameter (`None` when the request fails). The `alert` is not modelled.
- Id generation. The database generates fresh ids, so the in-place handlers take the new id as a parameter and require it to be unused.
- Routes.Login: takes the email and password as strings and does not model other body values. In the source a missing field is `undefined`, which Prisma reads as no filter, so a body `{}` makes `findFirst` (backend/server.ts:56-58) return the first tutor; an object sent as `password` becomes a Prisma filter. The "401 if and only if no tutor has both" promise holds only for string fields.
- Prisma's generic 500 path for registration (backend/server.ts:47-48). Also left out: body fields of the wrong type or missing. Express start-up, CORS, JSON body parsing and `app.listen` are left out too.
- Routes.UpdateProfile: does not model an absent body field. Prisma leaves an `undefined` field unchanged, while the model always writes the three given values.
- The database schema is not part of this model. The model assumes it declares unique ids, a unique tutor email (which `findUnique` by email at backend/server.ts:37 requires) and an owner foreign key from animals to tutors, which decides `Routes.CreateAnimal`'s `ForeignKeyViolation`. It also assumes the schema places no restriction on species, which the model keeps as free text, as the handler passes it through.
- Age is an unbounded integer, not a JavaScript number.
- Concurrency and async ordering. Each request, and each provider transition, runs atomically and one at a time. React rendering, effects re-running and the `AuthContext.Provider` value are left out.
- The frontend pages (`Dashboard`, `Profile`, `Register`, `Login`) and `App`/`PrivateRoute`. These are rendering and HTTP calls around this contract.
