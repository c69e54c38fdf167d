# feednext authentication and bookkeeping core, in Dafny

This project models the authentication back end of feednext and the small
bookkeeping and validation rules around it, and proves properties of the model:

- `Auth` (`auth_service.dfy`): the `AuthService` class, covering signup with a
  verification mail, signin, signout through the revocation store, credential
  lookup, account recovery and account verification. The users collection,
  the revocation store and the mail outbox are fields of the class. The JWT
  signer and decoder and the HMAC digest are functions fixed at construction.
- `Entries` (`entry_service.dfy`): the `EntryService` class. It covers the
  Mongo-id guards, entry creation with its whitespace rule, voting, single and
  bulk deletion, and the title entry counters kept in step. The grouping that
  `deleteEntriesBelongsToUsername` does with a `Map` inside `reduce` is a
  method with a loop, proved against counting functions.
- `AuthRoutes` (`auth_controller.dfy`): the controller's rate-limit quota
  table, the sign-in handler, the cookie domain taken from `APP_DOMAIN`, the
  refresh guard and the token check. The handler moves the refresh token out
  of the body into a cookie.
- `SignIn` (`login_form.dfy`): the client's sign-in form. It covers the
  email classifier `/\S+@\S+\.\S+/`, the request payload and the
  success/failure callbacks.
- `BaseSettings` (`account_settings.dfy`): the account settings view. It
  covers the phone and geographic validators as the sequence of their
  `callback` calls, the avatar fallback, and the loop that fills the form from
  the current user.
- `Js` (`js.dfy`), `Http` (`http.dfy`), `Common` (`common.dfy`): the parts of
  JavaScript the code relies on and the HTTP errors and replies. The JavaScript
  parts are values, truthiness, `\s`, the trimming regular expression and
  `split`.

Every repository call the entry service makes is recorded in order, so "nothing
is touched before the guard" is a statement about that record. The clock, the
generated password, the ids the stores assign and the failures of the store
and the mail service are parameters of the operations.

Where the documented behaviour of the system and the code differ, the model
follows the code:

- `signUp` fails with `UnprocessableEntity` carrying the store's message, for
  a duplicate and for any other save error alike.
- `signOut` does not check the token's expiry. An expired token gets a
  non-positive TTL. A token that does not decode fails with a server error
  (`null.exp`), not with a token error.
- An expired verification token is a `NotFound` ("Incoming token is
  expired."), not a separate expiry error.
- The generate-recovery-key route allows 1 request per 300 seconds.
  Recover-account allows 3 per 300 seconds.
- Recovery failures of every kind, store failures included, become the one
  `NotFound`.

## Model

| member | source | states |
|---|---|---|
| Js.Trim | server/src/v1/Entry/Service/entry.service.ts:71 | the result is a slice of the text between two all-whitespace margins; it neither starts nor ends with whitespace; it is empty exactly when the text is whitespace only |
| Js.Split | client/src/pages/Account/Settings/components/base.tsx:61 | the pieces joined by the separator give the string back; no piece contains the separator; there is one piece exactly when the separator does not occur; the first piece ends at the earliest occurrence, and every piece but the last ends at the first occurrence at or after its start, so an overlapping occurrence is skipped as a left-to-right scan skips it |
| Js.SplitUnique | client/src/pages/Account/Settings/components/base.tsx:61 | any pieces that join back to the string, whose last piece has no separator and whose other pieces each end at the next separator, are exactly the pieces `split` returns |
| Js.OrNull | client/src/pages/Account/Settings/components/base.tsx:87 | `o[k] \|\| null` is the property when it is truthy and `null` otherwise, a missing key included |
| Auth.AccountWithEmail | src/v1/Auth/Service/auth.service.ts:125 | `findOneOrFail({email})` finds a row with that email, and finds none exactly when no row has it |
| Auth.NewAccount | src/v1/Auth/Service/auth.service.ts:35-40 | the saved row has the form's email, username and full name and is not verified |
| Auth.SignUpView | src/v1/Auth/Service/auth.service.ts:65-69 | the signup answer has exactly the entity's email, username, full name, verification flag and creation time, unchanged; no `_id`, `password` or `updated_at` |
| Auth.SignInView | src/v1/Auth/Service/auth.service.ts:82 | the signin user view is every column but `_id` and `password`, unchanged |
| Auth.Seconds | src/v1/Auth/Service/auth.service.ts:53 | `Math.floor(Date.now() / 1000)` is the whole second containing the clock value |
| Auth.VerificationPayload | src/v1/Auth/Service/auth.service.ts:50-54 | the verification token carries the username as `id`, the email, and an `exp` 900 seconds after the current whole second |
| Auth.RemainingSeconds | src/v1/Auth/Service/auth.service.ts:94 | the TTL is within half a second of the token's remaining lifetime, halves rounded up |
| Auth.CheckVerification | src/v1/Auth/Service/auth.service.ts:144-158 | the token is expired exactly when it decodes and its `exp` is at or before the current second; it is "not valid" exactly when it does not decode, or decodes unexpired without an email; a decoded, unexpired token with an email is accepted and yields that email |
| Auth.MatchingAsWritten | src/v1/Auth/Service/auth.service.ts:100-121 | the rows `validateUser` accepts as written: the email and digest, or else the digest alone |
| Auth.Matching | src/v1/Auth/Service/auth.service.ts:100-121 | the corrected lookup (see Findings): every accepted row has the digest and the given email, or, with no email, the given username; it accepts no more than the code as written |
| Auth.HashOnlyLookupIgnoresUsername | src/v1/Auth/Service/auth.service.ts:114-120 | with no email, a user named `bob` typing `alice`'s password is matched to `alice`'s row as written, and to no row under the intended lookup |
| Auth.AsWrittenIgnoresUsername | src/v1/Auth/Service/auth.service.ts:114-120 | with no email, every row with the digest is accepted as written whatever its username; one such row under another username is not accepted by the intended lookup, which is then strictly smaller |
| Auth.VerificationTokenLifetime | src/v1/Auth/Service/auth.service.ts:146-148 | a token minted by `signUp` is accepted exactly while the clock is before the minting second plus 15 minutes, and refused as expired exactly from then on, when the decoder reads back what the signer wrote |
| Auth.SameKeysKeepUnique | src/v1/Auth/Service/auth.service.ts:127-128 | rewriting a row without changing its email or username keeps emails and usernames unique |
| Auth.FreshAccountKeepsUnique | src/v1/Auth/Service/auth.service.ts:44-45 | saving a row whose email and username are both free keeps them unique |
| Auth.AuthService.VerificationMail | src/v1/Auth/Service/auth.service.ts:56-62 | the verification mail goes to the new account's address |
| Auth.AuthService.RecoveryMail | src/v1/Auth/Service/auth.service.ts:130-134 | the recovery mail goes to the requested address |
| Auth.AuthService.SignUp | src/v1/Auth/Service/auth.service.ts:34-71 | a failed save raises `UnprocessableEntity` with the store's message, saves nothing and mails nothing. Otherwise the row is saved, and the only mail queued is the verification mail to `dto.email` carrying the token. If the mail fails the row stays saved. The answer strips `_id`, `password` and `updated_at` and returns the id beside it |
| Auth.AuthService.SignIn | src/v1/Auth/Service/auth.service.ts:73-89 | the access token is signed over exactly `_id`, `username`, `email` and `created_at`; the user view has no `_id` or `password`; the id is returned; nothing is stored |
| Auth.AuthService.SignOut | src/v1/Auth/Service/auth.service.ts:91-98 | exactly one revocation entry is written, keyed by the token string, with the rounded remaining lifetime as TTL, and nothing else changes; a token that does not decode or has no `exp` writes nothing |
| Auth.AuthService.ValidateUser | src/v1/Auth/Service/auth.service.ts:100-121 | the corrected lookup (see Findings; the code as written ignores the username): an accepted row has the password's digest and the given email, or, with no email, the given username. It fails exactly when no row matches, with the same `NotFound` in both branches. Nothing changes |
| Auth.AuthService.AccountRecovery | src/v1/Auth/Service/auth.service.ts:123-141 | a missing account or a failed save changes nothing. Otherwise the password is replaced by the generated one and saved before the mail is queued, and a failed mail does not roll the save back. Every failure is the same `NotFound`; otherwise the answer is `OK` |
| Auth.AuthService.AccountVerification | src/v1/Auth/Service/auth.service.ts:143-160 | an expired or undecodable token changes nothing. An unknown email or a failed save is "not valid" and changes nothing. Otherwise exactly the account with the token's email is marked verified |
| Entries.IndexOfTitle | server/src/v1/Entry/Service/entry.service.ts:124 | the position of a title's first entry: an entry of that title, with none earlier |
| Entries.TitleIdsMember | server/src/v1/Entry/Service/entry.service.ts:123-128 | a title id is among the ids of the entries exactly when some entry refers to it |
| Entries.Updates | server/src/v1/Entry/Service/entry.service.ts:129-131 | one count update per group, in the groups' order, each by minus the group's count |
| Entries.DecrementedCounts | server/src/v1/Entry/Service/entry.service.ts:129-131 | applying the updates adds and removes no title, and lowers each title's count by the counts of its groups |
| Entries.AddToGroups | server/src/v1/Entry/Service/entry.service.ts:124-126 | one step of the `reduce` keeps the grouping of the entries read so far: a new title opens a group with count 1 at the end, a known title's group counts one more |
| Entries.GroupByTitle | server/src/v1/Entry/Service/entry.service.ts:123-128 | each title id of the entries appears in exactly one group, and no other id appears. The groups are in first-occurrence order. Each count is the number of that title's entries, and the counts add up to the number of entries |
| Entries.TitleGroupingUnique | server/src/v1/Entry/Service/entry.service.ts:123-128 | two sequences that are both a grouping of the same entries by title, in first-occurrence order and with those counts, are equal, so the grouping is determined by the entries |
| Entries.GroupsAddUp | server/src/v1/Entry/Service/entry.service.ts:123-131 | with one group per title, each counting its title, the counts of the groups with an id equal that title's number of entries |
| Entries.WrittenBy | server/src/v1/Entry/Service/entry.service.ts:121 | the entries the repository deletes for a user are exactly those the user wrote |
| Entries.NotWrittenBy | server/src/v1/Entry/Service/entry.service.ts:121 | the entries left are exactly those the user did not write |
| Entries.WithoutId | server/src/v1/Entry/Service/entry.service.ts:114 | the entries left after a deletion are exactly those with another id |
| Entries.WrittenByMultiset | server/src/v1/Entry/Service/entry.service.ts:121 | each entry the user wrote occurs among the deleted entries as often as in the collection, and no other entry occurs there |
| Entries.NotWrittenByMultiset | server/src/v1/Entry/Service/entry.service.ts:121 | each entry of another user is kept as often as the collection holds it, and no entry of the user is kept |
| Entries.WrittenByPartition | server/src/v1/Entry/Service/entry.service.ts:121 | the deleted entries and the kept entries together are the collection, counted with multiplicity |
| Entries.WithoutIdMultiset | server/src/v1/Entry/Service/entry.service.ts:114 | every entry with another id is kept as often as the collection holds it, and none with that id is |
| Entries.FindById | server/src/v1/Entry/Service/entry.service.ts:88 | `findOneOrFail(entryId)` finds an entry with that id, and finds none exactly when there is none |
| Entries.WithoutIdKeepsDistinct | server/src/v1/Entry/Service/entry.service.ts:114 | deleting one entry keeps entry ids distinct |
| Entries.NotWrittenByKeepsDistinct | server/src/v1/Entry/Service/entry.service.ts:121 | deleting a user's entries keeps entry ids distinct |
| Entries.EntryService.GetEntryById | server/src/v1/Entry/Service/entry.service.ts:32-37 | a non-Mongo id is a `BadRequest` and no repository is called; otherwise exactly one `getEntry` call is made, the repository's error propagates, and its answer is the `entry_detail` reply |
| Entries.EntryService.UpdateEntryText | server/src/v1/Entry/Service/entry.service.ts:63-68 | a non-Mongo id is a `BadRequest` and no repository is called; otherwise exactly the update call is made, the repository's error propagates, and its answer is the `entry_detail` reply |
| Entries.EntryService.CreateEntryFor | server/src/v1/Entry/Service/entry.service.ts:70-82 | a text that is whitespace only is a `BadRequest`, and no store or repository is touched. Otherwise the count update by +1 comes first. An unknown title is a `BadRequest` and no entry is created. Otherwise the title's count goes up by exactly one and the trimmed entry is created; if the repository fails to create it, its error propagates and the raised count stays |
| Entries.EntryService.Vote | server/src/v1/Entry/Service/entry.service.ts:97-108 | a non-Mongo id is a `BadRequest` before any repository call; a missing entry is a `BadRequest` after the lookup and no vote is cast; otherwise the vote follows the lookup, the repository's error propagates, and only a vote it accepts is confirmed with 200 |
| Entries.EntryService.UndoVote | server/src/v1/Entry/Service/entry.service.ts:84-95 | the same guards in the same order as voting, with its own messages; the vote is undone only for an existing entry, the repository's error propagates, and only an undo it accepts is confirmed with 200 |
| Entries.EntryService.Delete | server/src/v1/Entry/Service/entry.service.ts:110-117 | a non-Mongo id is a `BadRequest` before any repository call. An unknown user, or an entry the repository refuses, is the repository's error and nothing is deleted. Otherwise the entry is removed and its title's count goes down by exactly one |
| Entries.EntryService.DecrementCounts | server/src/v1/Entry/Service/entry.service.ts:129-131 | the counts and the call record after the updates are those of `Decremented` and `Updates` for the groups |
| Entries.EntryService.DecrementByTitle | server/src/v1/Entry/Service/entry.service.ts:123-131 | every title's count goes down by exactly the number of its deleted entries, and no title is added. The calls issued are one update per distinct title of the deleted entries, in first-occurrence order, each by minus that title's number of deleted entries, and nothing else |
| Entries.EntryService.DeleteAllOf | server/src/v1/Entry/Service/entry.service.ts:119-133 | an unknown user is the repository's error and nothing changes. Otherwise exactly the user's entries are removed and each title's count goes down by its number of removed entries. The calls are the user lookup, the bulk delete, then one update per distinct title of the removed entries, in first-occurrence order, each by minus its count |
| AuthRoutes.Quota | server/src/v1/Auth/Controller/auth.controller.ts:37-103 | the `@RateLimit` table: sign-in 5 requests per 300 s, sign-up 1 per 60 s, generate-recovery-key 1 per 300 s, recover-account 3 per 300 s, account-verification 3 per 300 s, each with its own message; sign-out, check-token and refresh-token have none |
| AuthRoutes.JwtGuarded | server/src/v1/Auth/Controller/auth.controller.ts:72-111 | exactly sign-out and check-token are behind `@UseGuards(AuthGuard('jwt'))` |
| AuthRoutes.QuotaOrGuard | server/src/v1/Auth/Controller/auth.controller.ts:37-120 | every route is rate limited or behind the JWT guard, never both, except the refresh route, which has neither |
| AuthRoutes.CookieDomain | server/src/v1/Auth/Controller/auth.controller.ts:51 | without a `//` in `APP_DOMAIN`, the domain renders as `undefined` |
| AuthRoutes.CookieDomainSegment | server/src/v1/Auth/Controller/auth.controller.ts:51 | with a `//`, the domain is the text after the earliest `//` up to the first `//` that starts after it ends, or to the end; for `a///b` that is `/b` |
| AuthRoutes.CookieDomainOfSegment | server/src/v1/Auth/Controller/auth.controller.ts:51 | any text that stands in that position is the cookie domain, so the description admits no other domain |
| AuthRoutes.TakeRefreshToken | server/src/v1/Auth/Controller/auth.controller.ts:46-47 | a missing or non-object `attributes`, or a missing or `null` user, is a server error. With a user object, the token is read and removed from the user and nothing else changes. With another primitive user the body is unchanged |
| AuthRoutes.RestoreRefreshToken | server/src/v1/Auth/Controller/auth.controller.ts:46-47 | putting the taken token back gives the service's body back, so only the token was removed |
| AuthRoutes.RefreshGuard | server/src/v1/Auth/Controller/auth.controller.ts:118 | a missing or empty `rt` cookie is the `BadRequest`, exactly; otherwise the cookie's value is passed on |
| AuthRoutes.HttpResponse.SetCookie | server/src/v1/Auth/Controller/auth.controller.ts:50 | one cookie is appended to the response |
| AuthRoutes.HttpResponse.Send | server/src/v1/Auth/Controller/auth.controller.ts:59 | one body is appended to the response |
| AuthRoutes.AuthController.RefreshCookie | server/src/v1/Auth/Controller/auth.controller.ts:50-55 | the `rt` cookie carries the token, the domain from `APP_DOMAIN`, the refresh route's path, and is `httpOnly` and `secure` |
| AuthRoutes.AuthController.SignIn | server/src/v1/Auth/Controller/auth.controller.ts:43-60 | errors of validation and of the service propagate and nothing is sent. Otherwise the body without the refresh token is sent exactly once, and the `rt` cookie is set exactly when `rememberMe` is truthy |
| AuthRoutes.AuthController.RefreshJwtToken | server/src/v1/Auth/Controller/auth.controller.ts:116-120 | without an `rt` cookie the answer is the `BadRequest` and the service is not consulted; otherwise it is the service's answer for that cookie |
| AuthRoutes.AuthController.CheckJwtToken | server/src/v1/Auth/Controller/auth.controller.ts:109-114 | once the guard admits the request, the answer is always "Token is valid" with status 200 |
| SignIn.IsEmailMatchesPattern | client/src/components/SignModal/components/LoginForm.tsx:27 | the classifier holds exactly when the unanchored pattern matches somewhere: a non-whitespace run, `@`, a non-whitespace run, `.`, a non-whitespace run |
| SignIn.Payload | client/src/components/SignModal/components/LoginForm.tsx:30-34 | the body has an `email` key when the input is an email and a `username` key otherwise, never both, with the unchanged input. `rememberMe` is the boolean `true` exactly when `remember` is truthy, and the password is unchanged |
| SignIn.LoginForm.Submit | client/src/components/SignModal/components/LoginForm.tsx:26-34 | the sending flag is raised and the payload is the one sent |
| SignIn.LoginForm.OnSuccess | client/src/components/SignModal/components/LoginForm.tsx:35-47 | the access token is dispatched first; then the data without it is dispatched as the user. A missing or `null` `attributes` throws into the failure path, which dispatches nothing and lowers the flag |
| SignIn.LoginForm.OnFailure | client/src/components/SignModal/components/LoginForm.tsx:48-51 | the sending flag is lowered and the message shown |
| BaseSettings.ValidatorGeographic | client/src/pages/Account/Settings/components/base.tsx:42-58 | the province message comes first when the province key is falsy, the city message appears exactly when the city key is falsy, exactly one argument-less call closes the sequence, and there is one call per failed check plus that one, nothing else |
| BaseSettings.ValidatorPhone | client/src/pages/Account/Settings/components/base.tsx:60-69 | the area-code message comes first, exactly when nothing precedes the first `-`. The phone-number message comes next, exactly when no `-` occurs or the first is followed by the end or another `-`. One argument-less call always comes last |
| BaseSettings.SplitFirstPiece | client/src/pages/Account/Settings/components/base.tsx:61-64 | the first piece of `split('-')` is empty exactly when the value is empty or starts with `-` |
| BaseSettings.SplitSecondPiece | client/src/pages/Account/Settings/components/base.tsx:65-67 | the second piece of `split('-')` is missing or empty exactly when there is no `-`, or the first `-` ends the value or is followed by another; later pieces play no part |
| BaseSettings.AvatarURL | client/src/pages/Account/Settings/components/base.tsx:93-103 | the empty string with no user, the user's avatar when it is truthy, the default picture otherwise |
| BaseSettings.AvatarShownIffUser | client/src/pages/Account/Settings/components/base.tsx:93-103 | the URL is truthy exactly when there is a current user |
| BaseSettings.BaseView.constructor | client/src/pages/Account/Settings/components/base.tsx:136-268 | the form registers exactly the seven fields, all empty |
| BaseSettings.BaseView.SetBaseInfo | client/src/pages/Account/Settings/components/base.tsx:82-91 | with a current user, every registered field gets the user's value under its key, or `null` when that is falsy or missing. The set of fields is kept. With no user nothing changes |

## Left out

- Cryptography: the JWT signer and decoder, `SECRET_KEY` and the HMAC-SHA256 digest are functions fixed at construction, with no properties. The `keymachine` password is a parameter.
- The rate limiter's counters, windows and atomicity belong to a library outside the model; only the quota table is modelled.
- Looking up revocation entries on later requests happens in files outside the model; only the write in `signOut` is modelled, with no TTL expiry.
- Persistence, Redis, mail delivery, cookies and HTTP transport are maps, sequences and classes, with failures given as parameters. Uniqueness of email and username is an invariant of the users map; the store's own index is not modelled.
- The un-awaited count updates of `deleteEntriesBelongsToUsername` run one after the other in the model; their failures never reach the reply either way.
- The controller's callees `signIn(user, dto)`, `generateRecoveryKey`, `recoverAccount` and `refreshToken` come from another revision of the service; their outcomes are parameters. The generate-recovery-key and recover-account handlers are one-line delegations and appear only in the quota table.
- The entries repository's `getEntry`, `updateEntry`, `voteEntry`, `undoVoteOfEntry` and `deleteEntry` are known only as recorded calls. What `getEntry`, `updateEntry`, `voteEntry` and `undoVoteOfEntry` answer, or the error they raise, is a parameter passed on in the reply. Whether `deleteEntry` lets a user delete an entry is a predicate fixed at construction, and `isMongoId` is one too.
- `serializerService.serializeResponse(key, data)` is the reply `Response(key, data)`; the shape the serializer gives it is not part of this model.
- Entries.EntryService.CreateEntryFor: the `updated_entry` reply is the created entry itself, with the fields the model keeps; the entity's other columns are not modelled.
- Auth.NewAccount, Auth.AuthService.AccountRecovery: the password is stored as the service hands it to the repository. Any hashing the users entity does when it is saved is not part of this model. So `ValidateUser`, which looks for the digest of the typed password, finds an account saved here only if that digest equals the stored text.
- Auth.AuthService.SignOut: for a token that decodes without `exp`, the code passes a `NaN` TTL to the Redis service, which is not part of this model; the model fails with a server error and writes nothing.
- Auth.CheckVerification: a token that decodes without an `email` claim is "not valid"; what `findOneOrFail({ email: undefined })` of the users repository does is not part of this model.
- BaseSettings.BaseView.constructor: the form's fields start as `null`; the form library starts them as `undefined`, which this model does not distinguish from `null`.
- `getEntriesByTitleId`, `getEntriesByAuthorOfIt` and `getFeaturedEntryByTitleId` pass straight through to repository code outside the model.
- `location.reload`, `message.error`'s display time, the JSX, the form decorators and `connect`.
- JavaScript numbers are integers: `NaN`, `-0` and fractions are not modelled in truthiness, and a clock value is whole milliseconds.
- `configService.getEnv('APP_DOMAIN')` is a string fixed at construction; a missing setting is not modelled.
- On a failed sign-in request with no `error.response`, the message read throws; only the flag reset is modelled, with the message given as a parameter.
- `\s` is ECMAScript's fixed WhiteSpace and LineTerminator set written out character by character.
- BaseSettings.ValidatorPhone: the `value` is a string; a `null` or `undefined` value, on which `split` throws a `TypeError`, is not modelled.
- BaseSettings.ValidatorGeographic: the `value` always has a `province` and a `city`; a `null` or `undefined` value (which `setBaseInfo` writes when the user has no geographic data), on whose destructuring the validator throws a `TypeError`, and a missing `province` or `city`, on whose `.key` it throws, are not modelled.
- Entries.EntryService.Delete, Entries.EntryService.DeleteAllOf: `usersRepository.getUserByUsername` is assumed to fail exactly for a username outside the set of known usernames, and `deleteEntriesBelongsToUsername` is assumed never to fail; both are outside the model.

## Findings

| source | as written | input that shows it | evidently intended | confidence | as-written member | corrected member |
|---|---|---|---|---|---|---|
| src/v1/Auth/Service/auth.service.ts:114-120 | without an email, the account is looked up by password digest alone, so the username typed is never consulted | users `alice` (digest `d1`) and `bob`; the form sends username `bob` and a password whose digest is `d1`; `alice`'s row is accepted | look the account up by username and digest | not executed | Auth.HashOnlyLookupIgnoresUsername | Auth.AuthService.ValidateUser |
