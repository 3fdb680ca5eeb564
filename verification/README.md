# User-account backend: a Dafny model of its core

This project models the pure core of a small Express/Sequelize user-account
service: the session-token store with its sliding one-week window and hourly
expiry sweep, the per-field request-validation chains and the error map the
registration route builds from them, the user-store operations (registration
with rollback, activation, listing, lookup, update, delete), and the
random-string generator that produces tokens.

The database, the clock, the random source, bcrypt, the mailer, base64
decoding, content-type sniffing and the e-mail shape check are replaced by
plain values and function parameters:

- time is an integer `now` in milliseconds;
- random bytes are a `seq<Byte>` of the requested length;
- the token table is a `map<string, TokenRow>` keyed by token; the user
  table is a `seq<User>` in storage order, and `findOne` is "the first
  matching row";
- a transaction that rolls back is a store returned unchanged;
- `bcrypt.hash`, `isEmail`, `Buffer.from(…, "base64")`,
  `FileType.fromBuffer` and the activation mailer are uninterpreted
  function parameters; the id the store assigns to a new user is an input.

Modules follow the source files: `Generator` (shared/generator.js),
`TokenService` (auth/TokenService.js), `UserService` (user/UserService.js),
`Chains` (the generic validation-chain evaluator the routes rely on),
`Validation` (middleware/validation.js), `UserRouter` (user/UserRouter.js)
and `FileService` (the `checkUsernameAnImage` rules of file/FileService.js).

Validation chains are data: a chain names a field and lists `Check` steps
and `Bail` markers exactly as the builder calls are written. A `Bail` stops
the chain once any earlier validator of that chain has failed. Custom
validators are function values that either resolve or throw a message. The
registration chains in middleware/validation.js and user/UserRouter.js are
identical, so they are defined once in `Validation` and used by the router.

The model follows the code as written:

- usernames are 4 to 32 characters and are not trimmed (middleware/validation.js:9);
- a failed token verification dereferences a null lookup result
  (auth/TokenService.js:26), modelled as the failure `NullDereference`;
- the password rule demands 5 characters although its message says 6
  (middleware/validation.js:28-29);
- the registration route answers a validation failure with the body
  `{validationErrors}` only (user/UserRouter.js:37-44); the tests at
  __test__/UserRegister.spec.js:231-238 and :319-328 expect a structured
  body with path, timestamp and message, which the route at user/UserRouter.js:37-44 does not produce;
- the `EmailException` and `InvalidTokenException` messages come from the
  tests (UserRegister.spec.js:220 and :312-314), since their classes are not
  part of this model.

## Model

| member | source | states |
|---|---|---|
| Generator.HexEncode | node_express_tdd/source/src/shared/generator.js:4 | hex encoding yields two characters per byte, all in `[0-9a-f]` |
| Generator.DecodeEncode | node_express_tdd/source/src/shared/generator.js:4 | decoding the hex encoding of any bytes returns those bytes |
| Generator.EncodeDecode | node_express_tdd/source/src/shared/generator.js:4 | every even-length lower-case hex string is the encoding of its decoding |
| Generator.EncodePrefix | node_express_tdd/source/src/shared/generator.js:4 | encoding the first k bytes gives the first 2k characters of the encoding |
| Generator.RandomString | node_express_tdd/source/src/shared/generator.js:3-5 | `randomString(n)` has exactly n characters, all lower-case hex, and is a prefix of the hex encoding of the n bytes |
| Generator.RandomStringUsesHalfTheBytes | node_express_tdd/source/src/shared/generator.js:4 | two byte strings that agree on their first ceil(n/2) bytes give the same `randomString(n)` |
| Generator.RandomStringDecodes | node_express_tdd/source/src/shared/generator.js:4 | for even n the string decodes to exactly the first n/2 random bytes |
| TokenService.IssuedToken | node_express_tdd/source/src/auth/TokenService.js:7 | an issued token is 32 lower-case hex characters |
| TokenService.CreateToken | node_express_tdd/source/src/auth/TokenService.js:6-14 | issuing adds exactly one row `{userId, lastUsedAt = now}` under the returned token and keeps every other row; a taken key is a failed insert |
| TokenService.Verify | node_express_tdd/source/src/auth/TokenService.js:16-30 | succeeds iff a row for the token has `lastUsedAt > now - 604800000`; then that row's `lastUsedAt` becomes now, its user id is returned and no other row changes; otherwise it fails with the null dereference |
| TokenService.DeleteToken | node_express_tdd/source/src/auth/TokenService.js:32-34 | removes the token's row and keeps all other rows unchanged |
| TokenService.Sweep | node_express_tdd/source/src/auth/TokenService.js:38-45 | keeps exactly the rows with `lastUsedAt >= now - 604800000`, unchanged |
| TokenService.DeleteTokenIdempotent | node_express_tdd/source/src/auth/TokenService.js:32-34 | deleting twice equals deleting once; deleting an absent token changes nothing |
| TokenService.SweepIdempotent | node_express_tdd/source/src/auth/TokenService.js:38-45 | sweeping twice at the same instant equals sweeping once |
| TokenService.ExactlyOneWeekOld | node_express_tdd/source/src/auth/TokenService.js:17-45 | a row exactly one week old is neither verifiable nor swept |
| TokenService.VerifiedTokenSurvivesSweep | node_express_tdd/source/src/auth/TokenService.js:26-45 | a token verified at now survives a sweep at now and verifies again |
| TokenService.CreateThenVerify | node_express_tdd/source/src/auth/TokenService.js:6-30 | a token just issued verifies at the same instant for the user it was issued to |
| TokenService.SweptStoreVerifies | node_express_tdd/source/src/auth/TokenService.js:16-45 | after a sweep, a remaining token verifies iff it is not exactly on the one-week boundary |
| TokenService.DeletedTokenFails | node_express_tdd/source/src/auth/TokenService.js:16-34 | a deleted token never verifies |
| UserService.FindByEmail | node_express_tdd/source/src/user/UserService.js:32-34 | finds a user iff one has that e-mail, and the user found has it |
| UserService.Save | node_express_tdd/source/src/user/UserService.js:11-30 | on a sent e-mail appends exactly one inactive user built from username, e-mail, hash(password) and a 16-character hex activation token; on a failed send the store is unchanged and `EmailException` is raised; the token stored on the new user is the very string mailed, `RandomString(16, tokenBytes)` |
| UserService.ErrorMessage | node_express_tdd/source/__test__/UserRegister.spec.js:218-220 | the message each service error carries to the response; `EmailException` gives "E-mail Failure" (and the invalid-token message at UserRegister.spec.js:312-314), a not-found error its own message; its text for the null dereference is illustrative only |
| UserService.Activate | node_express_tdd/source/src/user/UserService.js:36-44 | succeeds iff some user holds the token; the first holder becomes active with no token and every other user is unchanged; otherwise `InvalidTokenException` |
| UserService.Listable | node_express_tdd/source/src/user/UserService.js:49-55 | a listed user is exactly a stored user that is active and whose id differs from the excluded id, and the listing keeps storage order (a subsequence of the store) |
| UserService.ListableKeepsEveryCopy | node_express_tdd/source/src/user/UserService.js:49-55 | every listable user appears in the listing as many times as in the store; with the subsequence clause of `Listable`, the listing is exactly the listable users in storage order |
| UserService.ExcludedId | node_express_tdd/source/src/user/UserService.js:47 | the id excluded from a listing is the authenticated user's, or 0 when anonymous (see `GetUsers`) |
| UserService.CeilDiv | node_express_tdd/source/src/user/UserService.js:65 | the page count is the least q with q * size >= count |
| UserService.GetUsers | node_express_tdd/source/src/user/UserService.js:46-67 | the content is the projected slice of listable users from `page*size` of length at most size; page and size are echoed; totalPages = ceil(count/size) |
| UserService.GetUser | node_express_tdd/source/src/user/UserService.js:69-81 | returns the projection of an active user with that id iff one exists, else NotFound "User not found" |
| UserService.UpdateUser | node_express_tdd/source/src/user/UserService.js:83-87 | with a user of that id, only the first such user's username changes; with none, the null dereference |
| UserService.DeleteUser | node_express_tdd/source/src/user/UserService.js:89-91 | keeps exactly the users with a different id, every copy of each, in their stored order (a subsequence of the store); with no such user the store is unchanged |
| UserService.DeleteUserIdempotent | node_express_tdd/source/src/user/UserService.js:89-91 | deleting an id twice equals deleting it once |
| UserService.SavePreservesWellFormed | node_express_tdd/source/src/user/UserService.js:11-30 | registration with a fresh id keeps ids unique and "inactive iff holding a token" |
| UserService.ActivatePreservesWellFormed | node_express_tdd/source/src/user/UserService.js:36-44 | activation keeps ids unique and "inactive iff holding a token" |
| UserService.UpdateUserPreservesWellFormed | node_express_tdd/source/src/user/UserService.js:83-87 | a username update keeps the store well formed |
| UserService.DeleteUserPreservesWellFormed | node_express_tdd/source/src/user/UserService.js:89-91 | deletion keeps the store well formed |
| UserService.RegisterThenActivate | node_express_tdd/source/src/user/UserService.js:11-44 | activating with the e-mailed token makes the new account active, clears its token, keeps the earlier users, and makes it visible to `getUser` |
| Chains.RunSteps | node_express_tdd/source/src/middleware/validation.js:5-10 | running a chain only adds messages after those already recorded, at most one per step |
| Chains.RunChain | node_express_tdd/source/src/middleware/validation.js:5-10 | every error a chain records is against its own field |
| Chains.ValidationResult | node_express_tdd/source/src/user/UserRouter.js:35 | every collected error names the field of some chain; the result is empty iff every chain records nothing; every error any chain records is collected |
| Chains.ValidationResultAppend | node_express_tdd/source/src/user/UserRouter.js:35 | collecting a concatenation of chain lists is the first list's errors followed by the second's, so errors come in chain order |
| Chains.ValidationResultOfTwo | node_express_tdd/source/src/user/UserRouter.js:35 | two chains give the first chain's errors followed by the second's |
| Chains.ValidationResultOfThree | node_express_tdd/source/src/user/UserRouter.js:35 | three chains give their errors one after another, in chain order |
| Chains.BailedChainReportsFirstFailure | node_express_tdd/source/src/middleware/validation.js:5-29 | in a chain with `bail` after every validator, the recorded messages are exactly the first failing validator's message |
| Chains.BailedChainAtMostOne | node_express_tdd/source/src/middleware/validation.js:4-30 | such a chain records at most one error |
| Chains.ChainReadsOnlyItsField | node_express_tdd/source/src/middleware/validation.js:4-30 | a field's errors depend only on that field's value |
| Validation.UsernameVerdict | node_express_tdd/source/src/middleware/validation.js:5-10 | empty or missing username gives only "Username cannot be null"; otherwise it fails iff its length is outside 4..32, with "Must have min 4 and max 32 characters" |
| Validation.EmailVerdict | node_express_tdd/source/src/middleware/validation.js:11-23 | e-mail rules run not-empty, then `isEmail`, then in-use, and only the first failure is reported |
| Validation.EmailLookupOnlyWhenWellFormed | node_express_tdd/source/src/middleware/validation.js:14-22 | for an empty or malformed address the verdict is the same whatever the user store holds |
| Validation.PasswordVerdict | node_express_tdd/source/src/middleware/validation.js:24-29 | empty password gives "Password cannot be null"; otherwise it fails iff shorter than 5, with "Password must be at least 6 characters" |
| Validation.RegistrationErrors | node_express_tdd/source/src/middleware/validation.js:4-30 | the registration errors are the username's, then the e-mail's, then the password's |
| Validation.RegistrationValidIff | node_express_tdd/source/src/user/UserRouter.js:9-33 | registration validation passes iff username is 4..32, the e-mail is non-empty, well formed and unused, and the password has at least 5 characters |
| Validation.UsernameChain | node_express_tdd/source/src/middleware/validation.js:5-10 | the username chain: not-empty, bail, length 4..32; it bails after each validator (its verdict is `UsernameVerdict`) |
| Validation.EmailNotInUse | node_express_tdd/source/src/middleware/validation.js:18-23 | the custom rule throws "E-mail in use" exactly when `findByEmail` finds a user (see `EmailVerdict`) |
| Validation.EmailNotInUseOutcome | node_express_tdd/source/src/middleware/validation.js:18-23 | the uniqueness rule reports "E-mail in use" iff some stored user has the address, and passes otherwise |
| Validation.EmailChain | node_express_tdd/source/src/middleware/validation.js:11-23 | the e-mail chain: not-empty, bail, `isEmail`, bail, not-in-use; it bails after each validator (its verdict is `EmailVerdict`) |
| Validation.PasswordChain | node_express_tdd/source/src/middleware/validation.js:24-29 | the password chain: not-empty, bail, length at least 5; it bails after each validator (its verdict is `PasswordVerdict`) |
| Validation.RegistrationChains | node_express_tdd/source/src/user/UserRouter.js:9-33 | the registration rules are the username, e-mail and password chains, in that order (see `RegistrationErrors`) |
| UserRouter.Assign | node_express_tdd/source/src/user/UserRouter.js:41 | an assignment keeps an existing key in place with the new value, or appends a new key, and keeps keys distinct |
| UserRouter.ToErrorMap | node_express_tdd/source/src/user/UserRouter.js:38-42 | the folded map has distinct keys, and its keys are exactly the failing fields |
| UserRouter.ToErrorMapOfDistinct | node_express_tdd/source/src/user/UserRouter.js:38-42 | with at most one error per field, the map holds each error as `field: message`, in error order |
| UserRouter.Register | node_express_tdd/source/src/user/UserRouter.js:34-53 | validation errors, and only they, give 400 with the folded error map and no write; a failed save gives 502 "E-mail Failure" and no write; otherwise 200 "User created" with the new user appended; the new user holds the mailed activation token |
| UserRouter.Respond | node_express_tdd/source/src/user/UserRouter.js:37-53 | with errors: 400 with their folded map and no write; without: 200 "User created" with the saved user appended iff the activation mail is sent, else 502 "E-mail Failure" and no write; the saved user holds the mailed activation token |
| UserRouter.RegisterSucceedsIff | node_express_tdd/source/src/user/UserRouter.js:7-53 | registration answers 200 iff every field rule passes and the activation e-mail is sent |
| UserRouter.RegistrationReadsOnlyItsFields | node_express_tdd/source/src/user/UserRouter.js:9-35 | two requests that agree on username, e-mail and password get the same validation errors |
| UserRouter.RegisterIgnoresOtherFields | node_express_tdd/source/src/user/UserService.js:11-19 | two requests that agree on username, e-mail and password get the same response and the same store, so a field such as `inactive` is ignored |
| UserRouter.RegisterErrorMap | node_express_tdd/source/src/user/UserRouter.js:37-44 | a 400's map has one entry per failing field, in the order username, e-mail, password |
| UserRouter.UsernameAndEmailNullKeys | node_express_tdd/source/__test__/UserRegister.spec.js:122-131 | any request with no username, no e-mail and a password of at least 5 characters gets the error keys `["username", "email"]`, in that order |
| UserRouter.ActivateAccount | node_express_tdd/source/src/user/UserRouter.js:56-65 | 200 "Account is activated" iff some user holds the token, and then the first holder is saved active with no token and every other user is unchanged; otherwise 400 with the invalid-token message and no change |
| UserRouter.ActivateAccountOnce | node_express_tdd/source/src/user/UserService.js:36-44 | when one user holds the token, the first request activates the account and a second request with that token gets 400 and changes nothing |
| FileService.CheckUsernameAndImage | node_express_tdd/source/src/file/FileService.js:32-54 | the update rules are a username chain followed by an image chain |
| FileService.ImageRule | node_express_tdd/source/src/file/FileService.js:39-53 | the image rule: absent or empty passes, more than 2 MiB decoded throws the size message, a type other than PNG or JPEG throws the type message (see `ImageVerdict`) |
| FileService.ImageChain | node_express_tdd/source/src/file/FileService.js:39-53 | the image chain checks the `image` field with the image rule alone, with no bail (see `ImageVerdict`) |
| FileService.ImageVerdict | node_express_tdd/source/src/file/FileService.js:39-53 | absent or empty image passes; else over 2097152 decoded bytes reports the size message; else it passes iff detected as PNG or JPEG, otherwise "Only JPEG or PNG files allowed" |
| FileService.ExactlyTwoMiBPassesSizeCheck | node_express_tdd/source/src/file/FileService.js:42-45 | an image of exactly 2 MiB is not rejected for size |
| FileService.OversizedImageIgnoresType | node_express_tdd/source/src/file/FileService.js:43-47 | an oversized image reports the size message whatever its detected type |
| FileService.CheckUsernameAndImageErrors | node_express_tdd/source/src/file/FileService.js:32-54 | the errors are the registration username verdict followed by the image verdict |

## Left out

- The hourly `setInterval` that schedules the sweep: timer plumbing; only one sweep run, as a function of `now`, is modelled.
- TokenService.Verify reads the clock twice (the cutoff, then the new `lastUsedAt`); both readings are one `now` here.
- Token rows created without a user id (as a test does) are not modelled; `userId` is always an integer.
- Deleting all tokens of a user, login, logout, password reset, update/delete authorisation, pagination clamping, static images and the structured error responder: none of their code is part of this model.
- `crypto.randomBytes`, `bcrypt.hash`, `isEmail`, base64 decoding and `FileType.fromBuffer`: foreign library calls, taken as inputs or function parameters.
- The e-mail transport (EmailService.js): an SMTP call, taken as a success/failure oracle.
- `createFolders`, `saveProfileImage`, `deleteProfileImage`: file-system I/O.
- Sequelize mechanics: real transactions, auto-increment ids, row order without ORDER BY (taken as storage order), and the token key constraint (a taken key is a failed insert).
- The validation library also looks for a field in cookies, headers, route parameters and query strings, validates array elements one by one and coerces non-string values; only string values in the JSON body are modelled, and an absent field equals null.
- The library's length rule discounts surrogate pairs and variation selectors; the model counts characters of `seq<char>`.
- UserService.GetUsers: requires `size >= 1`, which the router's clamping (not part of this model) guarantees; `Math.ceil(count/0)` is not modelled.
- The other errors `save` can raise (hashing or database failures) are not modelled; only `EmailException` reaches the 502 branch.
