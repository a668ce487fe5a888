# Trendify backend: admin gate, accounts, newsletter and contact inbox in Dafny

This project models the request handlers at the core of a small Express/MongoDB e-commerce backend. It covers four pieces:

- **`adminAuth`**, the middleware in front of every admin route. It reads the `token` header, verifies the JWT signature, and then tries three admin guards in order:
  - a structured `{ role: "admin", email }` payload naming a stored admin or `ADMIN_EMAIL`;
  - a legacy string payload containing the first stored admin's email;
  - a legacy string payload equal to `ADMIN_EMAIL + ADMIN_PASSWORD`, or starting with a non-empty `ADMIN_EMAIL`.

  If no guard matches, it lets the request through anyway (fail-open).
- **The account handlers.** `registerUser` rejects duplicates, then bad email formats, then passwords shorter than 8 UTF-16 units, and stores a bcrypt digest. `loginUser` answers unknown emails and wrong passwords alike and issues a `{ id }` token. `loginAdmin` compares strictly against the environment pair and signs the string `email + password`.
- **The newsletter list.** Its only key is the lower-cased email. Subscribing creates a record (201), reactivates an inactive one (200) or is refused for an active one (400). Unsubscribing deactivates. Delete-by-id and the admin listing (newest first) complete it.
- **The contact inbox.** A submission is validated and then normalised: fields are trimmed and the email is lower-cased. The admin can set a message's status, delete it, or list all messages newest first.

The pieces are organised like this:

- The four handler files are module `AdminAuth` (pure functions) and modules `UserController`, `NewsletterController` and `ContactController`. The last three keep their collection in a class (`Users`, `Newsletter`, `Inbox`) whose methods change it in place.
- bcrypt and jsonwebtoken are ideal injective constructors (module `Crypto`). A digest matches only its own password. A token verifies, under its own key only, to exactly the claims it was signed with. The one exception is a token over the empty string: its payload segment is empty; the `jws` decoder that jsonwebtoken uses refuses such a token (RFC 7515 itself allows one), so `jwt.verify` throws on it.
- `validator.isEmail` is a predicate parameter.
- `new Date()` is a `now: nat` parameter.
- Fresh document ids come from a counter.
- Module `AdminSession` relates the login handlers to the gate.

routes/userRoute.js:8-9 imports `changeAdminPassword` and `resetAdminPassword`, which controllers/userController.js does not define. `loginAdmin` trims nothing, persists nothing and signs a plain string.

## Model

| member | source | states |
|---|---|---|
| `JsString.TrimStart` | controllers/contactController.js:26-29 | the result is the suffix of the input left after the leading white space, and it does not start with white space |
| `JsString.TrimEnd` | controllers/contactController.js:26-29 | the result is the prefix of the input left before the trailing white space, and it does not end with white space |
| `JsString.TrimEndUnique` | controllers/contactController.js:26-29 | the trailing-space trim is the only prefix that is followed only by white space and does not end with it |
| `JsString.TrimStartUnique` | controllers/contactController.js:26-29 | the leading-space trim is the only suffix that is preceded only by white space and does not start with it |
| `JsString.Trim` | controllers/contactController.js:26-29 | `trim` leaves no white space at either end and never lengthens its input |
| `JsString.TrimSpec` | controllers/contactController.js:26-29 | `trim` returns the contiguous part of its input that starts right after the leading white space and is followed only by white space |
| `JsString.TrimIdempotent` | controllers/contactController.js:26-29 | trimming an already trimmed string changes nothing |
| `JsString.LowerChar` | controllers/newsletterController.js:19 | upper-case ASCII letters map to their lower-case letter; every other character is unchanged |
| `JsString.Lower` | controllers/newsletterController.js:19 | lower-casing keeps the length and maps each character independently |
| `JsString.LowerIsLower` | controllers/newsletterController.js:41 | a lower-cased string has no upper-case letter, and lower-casing it again changes nothing |
| `JsString.TrimLowerCommute` | controllers/contactController.js:27 | `email.toLowerCase().trim()` equals `email.trim().toLowerCase()` |
| `JsString.Includes` | middleware/adminAuth.js:39 | the empty string is included in every string, and a string longer than `s` never is |
| `JsString.StartsWith` | middleware/adminAuth.js:49 | `startsWith(p)` holds exactly when `p` occurs at position 0, and then `includes(p)` holds as well |
| `JsString.Utf16Length` | controllers/userController.js:62 | `length` counts UTF-16 units: between one and two per character, exactly one each when every character is in the basic plane |
| `Collection.IndexWhere` | controllers/userController.js:17 | `findOne` returns the first matching document, and returns nothing exactly when no document matches |
| `Collection.RemoveAt` | controllers/newsletterController.js:108 | deleting one document keeps every other document, in order, and removes exactly one copy of it |
| `Collection.RemoveAtUnique` | controllers/newsletterController.js:102-108 | under a unique key, deleting the document found at `i` keeps the key unique, leaves no document with that key and keeps every document with another key |
| `Collection.SortDesc` | controllers/newsletterController.js:85 | `find().sort({ key: -1 })` returns a permutation of the collection in descending key order |
| `Http.Falsy` | controllers/newsletterController.js:9 | a field that passes `!email` is a string with at least one character; a failing one is missing or "" |
| `Http.OrEmpty` | middleware/adminAuth.js:45-46 | an environment value is used as is when set, and falls back to "" exactly when it is unset or empty |
| `Crypto.Hash` | controllers/userController.js:70-71 | a digest matches the password it was made from and no other password |
| `Crypto.Compare` | controllers/userController.js:26 | `bcrypt.compare` holds exactly when rehashing the candidate with the digest's own salt reproduces the digest |
| `Crypto.Sign` | controllers/userController.js:108 | a signed token verifies to its claims under the signing key and fails under every other key; a token over the empty string fails under every key |
| `Crypto.Verify` | middleware/adminAuth.js:13-19 | verification succeeds exactly on tokens signed with the secret whose payload is not the empty string, and returns their claims |
| `Crypto.SignInjective` | controllers/userController.js:8 | signing is injective under one key |
| `Crypto.HeaderPresent` | middleware/adminAuth.js:8 | `!token` can only pass for a header that is there, and a header carrying a signed token always passes it |
| `AdminAuth.StoredEmail` | middleware/adminAuth.js:25-26 | `findOne({ email })` finds a document exactly when some stored admin has this email |
| `AdminAuth.StructuredAdmin` | middleware/adminAuth.js:23-26 | the structured guard needs an object payload with a non-empty email; with no stored admin, that email must be `ADMIN_EMAIL` |
| `AdminAuth.LegacyStoredMatch` | middleware/adminAuth.js:37-39 | a match needs a stored admin whose email is no longer than the token; every token that starts with that email matches |
| `AdminAuth.LegacyEnvMatch` | middleware/adminAuth.js:45-49 | every string the guard accepts starts with `ADMIN_EMAIL`; once `ADMIN_EMAIL` is non-empty, the guard accepts exactly the strings that start with it, whatever `ADMIN_PASSWORD` is |
| `AdminAuth.Gate` | middleware/adminAuth.js:4-64 | rejects with 401 exactly when the token is absent, empty or fails verification; sets `adminEmail` only on the structured route, and then to the token's email |
| `AdminAuth.MissingTokenRejected` | middleware/adminAuth.js:6-10 | an absent or empty header yields 401 "Token is required" |
| `AdminAuth.BadSignatureRejected` | middleware/adminAuth.js:13-19 | a token that fails verification yields 401, whatever the store and the environment |
| `AdminAuth.StructuredAccepted` | middleware/adminAuth.js:22-30 | `{ role: "admin", email }` with a non-empty email that is stored or equals `ADMIN_EMAIL` passes, with `adminEmail = email` |
| `AdminAuth.LegacyStoredAccepted` | middleware/adminAuth.js:35-42 | a string payload containing the first stored admin's email passes, without `adminEmail`; the empty string is refused with 401 |
| `AdminAuth.LegacyEnvAccepted` | middleware/adminAuth.js:44-52 | a string payload that misses the stored-admin check passes if it equals `envEmail + envPassword`, or starts with a non-empty `envEmail`; the empty string is refused with 401 |
| `AdminAuth.EnvEmailPrefixPasses` | middleware/adminAuth.js:49 | a string token that starts with a non-empty `ADMIN_EMAIL` passes a legacy guard whatever follows it: the password is never checked |
| `AdminAuth.LegacyStoredNeedsEmail` | middleware/adminAuth.js:37-39 | under the schema's required, unique email, a stored-admin match needs a non-empty stored email and a token at least as long |
| `AdminAuth.EmptyStoredEmailUnlocksLegacy` | middleware/adminAuth.js:37-42 | if the first stored admin had an empty email, which the schema forbids, every non-empty string token would pass the stored-admin guard |
| `AdminAuth.SignedTokensPass` | middleware/adminAuth.js:55-59 | fail-open: a signed token reaches the next handler exactly when its payload is not the empty string |
| `AdminAuth.GateFailClosed` | middleware/adminAuth.js:55-59 | the corrected gate passes only requests that match the structured guard or one of the two legacy guards |
| `AdminAuth.FailClosedAgrees` | middleware/adminAuth.js:55-59 | the corrected gate agrees with the original on every request, except those the original passes by falling through |
| `UserController.CreateToken` | controllers/userController.js:7-9 | a user token verifies to `{ id }` and carries no role or email |
| `UserController.CreateTokenInjective` | controllers/userController.js:7-9 | distinct user ids give distinct tokens |
| `UserController.FindByEmail` | controllers/userController.js:17 | finds a user with exactly this email, or none exactly when no user has it; with unique emails, the one it finds is the only one |
| `UserController.Show` | controllers/userController.js:108 | `String(v)` is the text of a string and "undefined" for a missing field |
| `UserController.LoginUser` | controllers/userController.js:12-42 | every refusal is the same 400 "Invalid email or password"; an unknown email is refused; a success (200) carries the stored user with this email, whose digest matches, and the token over that user's id |
| `UserController.LoginSucceedsIff` | controllers/userController.js:20-37 | with one user per email, login succeeds iff some user has this email and the password matches their digest |
| `UserController.RegisterRefusal` | controllers/userController.js:50-67 | a duplicate email is refused first, then a bad format, then a password shorter than 8 units; nothing is refused otherwise |
| `UserController.PasswordBoundary` | controllers/userController.js:62-67 | an eight-letter ASCII password is accepted and a seven-letter ASCII one refused |
| `UserController.LoginAfterRegister` | controllers/userController.js:74-81 | a user stored under a new email with the digest of `p` logs in with `p`, gets the token over their id, and is refused with any other password |
| `UserController.Users.Register` | controllers/userController.js:45-92 | a refused registration leaves the collection unchanged; an accepted one appends exactly one user, stored with `Hash(password)`, and answers 200 with the token over the new id; emails stay unique |
| `UserController.JsConcat` | controllers/userController.js:108 | for two strings, `email + password` is their concatenation |
| `UserController.LoginAdmin` | controllers/userController.js:95-117 | succeeds iff email and password are strictly equal to `ADMIN_EMAIL` and `ADMIN_PASSWORD` (missing counts as equal only to unset); a success answers 200 and refusals 400; the token's payload is the string `email + password`, and a token over "" fails verification |
| `UserController.UnsetEnvAdmitsEmptyBody` | controllers/userController.js:104-108 | with both variables unset, an empty body logs in and gets a token over "NaN" |
| `UserController.LoginAdminConfigured` | controllers/userController.js:104-112 | the corrected login succeeds iff both variables are set and non-empty and both fields equal them; its token carries `ADMIN_EMAIL + ADMIN_PASSWORD` |
| `UserController.ConfiguredAgrees` | controllers/userController.js:104-112 | with both variables set and non-empty, the corrected and the original login behave the same |
| `NewsletterController.FindByEmail` | controllers/newsletterController.js:19 | finds the subscriber stored under this key, or none exactly when no subscriber has it |
| `NewsletterController.FindById` | controllers/newsletterController.js:102 | finds the subscriber with this id, or none exactly when no subscriber has it |
| `NewsletterController.RemoveKeepsWellFormed` | controllers/newsletterController.js:102-108 | deleting the subscriber found by id keeps emails and ids unique, leaves no subscriber with that id and keeps all the others |
| `NewsletterController.Reactivate` | controllers/newsletterController.js:29-30 | reactivation sets `isActive` and `subscribedAt = now`, and keeps id and email |
| `NewsletterController.Newsletter.Subscribe` | controllers/newsletterController.js:5-54 | missing or invalid email gives 400 and no change; a key held by an active record gives 400 and no change; an inactive record is reactivated in place (200); an absent key gets exactly one new record under `lower(email)` (201); one record per key throughout |
| `NewsletterController.Newsletter.Unsubscribe` | controllers/newsletterController.js:57-79 | missing email gives 400; an unknown key gives 404 with no change; a known key keeps its record, now inactive (200) |
| `NewsletterController.Newsletter.Delete` | controllers/newsletterController.js:94-118 | missing id gives 400; an unknown id gives 404 with no change; a known id removes exactly that subscriber and keeps all others (200) |
| `NewsletterController.Newsletter.All` | controllers/newsletterController.js:82-91 | returns every subscriber, active or not, newest `subscribedAt` first, with `count` equal to the length |
| `NewsletterController.CaseVariantsShareRecord` | controllers/newsletterController.js:19-26 | subscribing "Ann@Shop.com" answers 201, subscribing "ann@shop.COM" afterwards answers 400 "already subscribed", and one record remains |
| `ContactController.AnyMissing` | controllers/contactController.js:9 | a submission that passes the missing-field check has all four fields, each with at least one character |
| `ContactController.Intake` | controllers/contactController.js:7-30 | a missing or empty field gives 400 "All fields are required"; then a raw email failing `isEmail` gives 400; otherwise the fields are trimmed, with no white space at either end, and the email is lower-cased |
| `ContactController.WhitespaceOnlyAccepted` | controllers/contactController.js:9-14 | fields made only of white space are not rejected; they are stored as empty strings |
| `ContactController.FindById` | controllers/contactController.js:68 | finds the message with this id, or none exactly when no message has it |
| `ContactController.AppendKeepsWellFormed` | controllers/contactController.js:32 | storing a message under the next id keeps ids unique |
| `ContactController.RemoveKeepsWellFormed` | controllers/contactController.js:92-97 | deleting the message found by id removes it and no other, and keeps ids unique |
| `ContactController.Inbox.Submit` | controllers/contactController.js:5-42 | a refused submission stores nothing; an accepted one appends exactly one normalised message and answers 201 |
| `ContactController.Inbox.UpdateStatus` | controllers/contactController.js:56-85 | missing id or status gives 400, an unknown id gives 404, neither changes anything; otherwise only that message's `status` changes (200) |
| `ContactController.Inbox.Delete` | controllers/contactController.js:88-107 | an unknown id gives 404 with no change; otherwise exactly that message is removed (200) |
| `ContactController.Inbox.All` | controllers/contactController.js:45-53 | returns every message, newest `createdAt` first, with `count` equal to the length |
| `AdminSession.AdminLoginTokenAccepted` | middleware/adminAuth.js:44-52 | the token from a successful configured admin login passes a legacy string guard, not just the fail-open branch; with no stored admin, it passes the environment guard |
| `AdminSession.AdminLoginTokenAcceptedAsWritten` | controllers/userController.js:104-109 | with both variables set and non-empty, the token from the original `loginAdmin` passes a legacy string guard |
| `AdminSession.EmptyEnvLoginTokenRefused` | controllers/userController.js:104-109 | with both variables set to "", the body `{ email: "", password: "" }` logs in with 200, but its token is refused by the gate with 401 |
| `AdminSession.UnsetEnvTokenOnlyFailsOpen` | middleware/adminAuth.js:55-59 | with the variables unset and no stored admin, the token minted for an empty body matches no guard and passes only by falling through |
| `AdminSession.UserTokenPassesGate` | middleware/adminAuth.js:55-59 | a plain user's login token passes the original gate by the fail-open route |
| `AdminSession.UserTokenRejectedWhenClosed` | middleware/adminAuth.js:55-59 | the corrected gate refuses a plain user's login token with 401 |
| `AdminSession.ClosedGateAcceptsAdminLogin` | middleware/adminAuth.js:44-52 | the corrected gate still admits every token a configured admin login issues |

## Findings

| source | as written | input that shows it | evidently intended | confidence | as-written member | corrected member |
|---|---|---|---|---|---|---|
| controllers/userController.js:104-108 | `email === process.env.ADMIN_EMAIL && password === process.env.ADMIN_PASSWORD` holds when both variables and both fields are `undefined` | `ADMIN_EMAIL` and `ADMIN_PASSWORD` unset; `POST /admin` with body `{}` returns 200 and a token over "NaN" | only an admin who supplies configured, non-empty credentials logs in | medium, not executed | `UserController.UnsetEnvAdmitsEmptyBody` | `UserController.LoginAdminConfigured` |
| middleware/adminAuth.js:55-59 | any token whose signature verifies is passed, on the stated premise that only `loginAdmin` mints tokens | a `{ id }` token from `loginUser` (controllers/userController.js:7-9, 29), signed with the same `JWT_SECRET`, gets through to the admin routes | only tokens that match an admin guard get through | medium, not executed | `AdminSession.UserTokenPassesGate` | `AdminAuth.GateFailClosed` |

## Left out

- `changeAdminPassword`, `resetAdminPassword`, `forgotPassword`, `resetPassword`, `updateProfile` and `getAllUsers` are imported by routes/userRoute.js:7-12. None of them is defined in controllers/userController.js, so their behaviour is not modelled.
- Structured `{ role: "admin", email }` tokens: no handler in this code issues them. The gate accepts them when they verify. Token expiry is not modelled.
- `getProfile`: a bare lookup by id with no decision in it.
- config/mongodb.js (the connection and `process.exit`) is not part of this model.
- The route files are not part of this model, beyond this note: `getAllSubscribers`, `deleteSubscriber` (routes/newsletterRoute.js:14-15), `getAllContacts`, `updateContactStatus` and `deleteContact` (routes/contactRoute.js:13-15) sit behind `adminAuth`.
- The generic `catch` → 500 paths, `console.log`, and async scheduling. A failing database call or a malformed ObjectId cast would land there, so no operation models them.
- Concurrency: two simultaneous registrations or subscriptions with the same email are not modelled; requests run one at a time.
- The schemas of the users, newsletter and contact collections are not shown. The users collection is assumed to have no unique index. The model also assumes the schemas add no `required` or `enum` validators beyond those shown; such a validator would turn the modelled 201 and 200 answers into the 500 path. A new subscriber's `isActive` is the constructor's `defaultActive` and its `subscribedAt` is the request time. A new contact message's `status` is the constructor's `defaultStatus` and its `createdAt` is the request time.
- `validator.isEmail` is an arbitrary predicate parameter, and bcrypt's salting and hashing is an injective constructor. Real bcrypt compares only the first 72 bytes of a password. So `UserController.LoginAfterRegister`'s "refused with any other password" rests on this ideal: two passwords that agree on their first 72 bytes would both match. In jsonwebtoken, signing is an injective constructor and verification is a key check. For an object payload the library adds an `iat` (issued-at) claim; the model leaves it out, so a token over `{ id }` is the same at every time, and two logins of one user may in fact receive different tokens.
- An unset or empty `JWT_SECRET`, which makes signing throw and verification fail, is not modelled; the secret is a string, and "" works as a key here.
- The token library's reading of a string payload that is itself JSON object text (it hands back an object) is not modelled; admin credentials whose concatenation is JSON text are out of scope.
- Request fields of non-string JSON types (numbers, objects, arrays) are not modelled. This also covers a non-string `email` inside a structured token.
- In `registerUser` and `loginUser`, `email` and `password` are always present strings. A missing password there raises and lands on the 500 path.
- `JsString.LowerChar` and `JsString.Lower`: map only ASCII letters and leave every other character unchanged, because JavaScript's full Unicode case mapping is not modelled.
- `NewsletterController.Newsletter.All` and `ContactController.Inbox.All`: the order among records with equal timestamps is not stated, since the database leaves it unspecified. The reply's message is "" where the JSON envelope has none.
