# Identity requests of mern-auth, modelled in Dafny

This project models the server side of the mern-auth identity flow: the `register`, `login`
and `logout` handlers of the auth controller, the success envelope `ApiResponse`, the typed
error `ApiError`, and the user document of the user model, with its defaults, its required
fields and its unique `email`.

- `values.dfy` (`Values`): `Option` for fields that may be absent, and `Json` for the
  `errors` list of an ApiError.
- `text.dfy` (`Text`): `trim` and `toLowerCase` as the handlers apply them to request fields.
- `api_response.dfy` (`ApiResponses`): the envelope, with `success` derived from `status`.
- `api_error.dfy` (`ApiErrors`): the error value, with `sucess` always false, default
  `errors` and the stack choice.
- `user_model.dfy` (`UserModel`): the user record, its field names, the defaults of a new
  document and exclusion-only `select`.
- `user_store.dfy` (`UserStore`): the in-memory collection, a class whose `users` sequence
  `create` appends to, with `findOne` over the three filters the controller uses.
- `auth_controller.dfy` (`AuthController`): the three handlers as methods, each proved
  against a value-level description (`RegisterOutcome` and `RegisterStore`, `LoginOutcome`).
- `auth_properties.dfy` (`AuthProperties`): what the handlers promise, as lemmas over those
  descriptions.

A handler ends in one of three ways. `Forwarded(e)` is `next(new ApiError(...))`. `Thrown` is
an exception or a rejected promise that the async wrapper hands to `next`.
`Sent(status, body, cookies)` is a response, with its cookie calls in call order. Four things
come from outside the model and are parameters:
- `comparePassword`: the password check; `None` when its promise rejects.
- `issue`: token generation; `None` when its promise rejects.
- `readBackOk`: whether the database read after a write (`findById`) returns the document.
- `secure`: the `NODE_ENV === 'production'` test.

Behaviour of the code that the model keeps as written:
- `register` checks only `name`, `email` and `password` for blanks. An absent `userName`
  makes `userName.toLowerCase()` throw (`Thrown`); it is not a validation error.
- The envelope's status field is `status`, not `statusCode`.
- `login` answers 201 with the message "User registered successfully".
- The conflict message is spelled "Uer already exists".
- The access-token cookie is set without a `path` option.
- The refresh-token cookie path is `/api/users/refresh-token`.
- The `register` projection keeps the OTP fields. Only `login` drops them.
- `logout` does not touch the stored refresh token.
- The stored password is the value passed to `create`. `userModel.js` defines no hashing
  hook.

## Model

| member | source | states |
|---|---|---|
| Text.TrimStart | server/src/controllers/authController.js:23 | the result is a suffix of the input, everything cut off is white space, and it does not start with white space |
| Text.TrimEnd | server/src/controllers/authController.js:23 | the result is a prefix of the input, everything cut off is white space, and it does not end with white space |
| Text.Trim | server/src/controllers/authController.js:23 | the result is the input with a white-space prefix (the one TrimStart cuts) and a white-space suffix cut off, and it neither starts nor ends with white space |
| Text.TrimEmptyIff | server/src/controllers/authController.js:76 | trimming gives the empty string exactly when the input is white space only |
| Text.TrimmedNonEmpty | server/src/controllers/authController.js:23-25 | a value that is not blank after trimming is a non-empty string, as the required validators demand |
| Text.ToLower | server/src/controllers/authController.js:28 | same length, no upper-case letter left, non-letters kept, letters shifted to lower case |
| Text.ToLowerIdempotent | server/src/controllers/authController.js:28-35 | lower-casing a stored lower-cased user name changes nothing |
| AuthController.BlankIff | server/src/controllers/authController.js:23 | a field counts as missing exactly when it is absent or white space only |
| ApiResponses.NewResponse | server/src/utils/ApiResponse.js:2-6 | status, data and message are kept as given; success holds exactly when 200 <= status < 300 |
| ApiResponses.SuccessfulStatus | server/src/utils/ApiResponse.js:6 | a 2xx status (201 included) gives success true |
| ApiResponses.ErrorStatusNotSuccessful | server/src/utils/ApiResponse.js:6 | a 4xx or 5xx status gives success false |
| ApiErrors.NewError | server/src/utils/ApiError.js:2-9 | statusCode and message as given, sucess false, errors [] when left out, a non-empty supplied stack kept verbatim and otherwise the captured trace |
| UserModel.NewUser | server/src/models/userModel.js:3-10 | a new document keeps the given fields and gets verifyOtp "", verifyOtpExpireAt 0, isAccauntVerified false |
| UserModel.Select | server/src/controllers/authController.js:38 | exclusion-only select keeps exactly the other fields, each with its stored value |
| UserStore.FindOne | server/src/controllers/authController.js:27-29 | the first document the filter matches, or none exactly when no document matches |
| UserStore.FindByIdOfStored | server/src/controllers/authController.js:90 | in a consistent collection findById of a stored user's id finds that user |
| UserStore.UserCollection.Create | server/src/controllers/authController.js:35 | create appends one document with the next id and the schema defaults, and keeps unique emails, distinct ids and the required fields |
| AuthController.SessionCookies | server/src/controllers/authController.js:46-59 | refreshToken first, then accessToken; both httpOnly, sameSite strict, secure as the flag; 604800000 ms with path /api/users/refresh-token, and 900000 ms with no path; values are the issued tokens |
| AuthController.RegisterProjection | server/src/controllers/authController.js:38 | the returned user has exactly _id, name, email, userName, verifyOtp, verifyOtpExpireAt and isAccauntVerified, each with its stored value; no password and no refreshToken |
| AuthController.LoginProjection | server/src/controllers/authController.js:90-92 | the returned user has exactly _id, name, email, userName and isAccauntVerified, each with its stored value; no password, refreshToken, verifyOtp or verifyOtpExpireAt |
| AuthController.RegisterStore | server/src/controllers/authController.js:23-35 | the stored records are kept unchanged as a prefix, at most one record is appended, under the next id, and the id counter moves on by the number appended |
| AuthController.RegisterOutcome | server/src/controllers/authController.js:19-63 | an ApiError is a 400 or a 500 with sucess false; a response is 201 with body status 201, success true and two cookies |
| AuthController.LoginOutcome | server/src/controllers/authController.js:72-112 | an ApiError is a 400, 404 or 401 with sucess false; a response is 201 with body status 201, success true and two cookies |
| AuthController.Register | server/src/controllers/authController.js:19-63 | the handler's result and the new collection are those RegisterOutcome and RegisterStore give for the old collection, and the collection stays valid |
| AuthController.Login | server/src/controllers/authController.js:72-112 | the handler's result is LoginOutcome of the collection, which it does not change |
| AuthController.Logout | server/src/controllers/authController.js:117-135 | status 200, data null, message "Logged out successfully", both cookies cleared with the options they were set with minus maxAge; no store is involved |
| AuthProperties.LoginProjectionFields | server/src/controllers/authController.js:90-92 | the login projection is the register projection without verifyOtp and verifyOtpExpireAt |
| AuthProperties.AdmissibleIff | server/src/controllers/authController.js:23-33 | a request passes both checks exactly when no stored user has its email or its lower-cased user name |
| AuthProperties.RegisterRejectsBlankFields | server/src/controllers/authController.js:23-25 | a blank name, email or password gives 400 "All fields are required" and no user |
| AuthProperties.RegisterThrowsWithoutUserName | server/src/controllers/authController.js:28 | an absent userName after validation throws and creates no user |
| AuthProperties.RegisterRejectsTakenIdentity | server/src/controllers/authController.js:27-33 | a stored user with the same email, as given, or the lower-cased userName gives 400 "Uer already exists" and no change |
| AuthProperties.RegisterChangesStoreIff | server/src/controllers/authController.js:35 | the collection changes exactly for an admissible request, by one record with the given fields, the lower-cased userName, the next id and the defaults |
| AuthProperties.RegisterSucceedsIff | server/src/controllers/authController.js:44-61 | a response is sent exactly when the request is admissible, the read-back succeeds and token generation resolves: 201, success true, the projection of the new user, the cookies holding the tokens issued for that user |
| AuthProperties.RegisterNotCreated | server/src/controllers/authController.js:38-42 | an empty read-back gives 500 "User not created" with the user already stored, and no cookies |
| AuthProperties.RegisterTokensRejected | server/src/controllers/authController.js:35-44 | a rejected token generation after an admissible request with a successful read-back throws, with the new user already stored |
| AuthProperties.RegisterFailureLeavesStore | server/src/controllers/authController.js:23-44 | every ApiError except the 500 leaves the collection unchanged; an exception leaves it unchanged exactly when userName is absent, and otherwise comes after create |
| AuthProperties.AppendKeepsConsistent | server/src/models/userModel.js:4-5 | appending a valid record with a fresh id and an unused email keeps the collection consistent |
| AuthProperties.AppendKeepsUserNamesNormalised | server/src/controllers/authController.js:27-35 | appending an unused lower-cased user name keeps user names unique and lower-cased |
| AuthProperties.RegisterPreservesInvariant | server/src/controllers/authController.js:27-35 | register keeps unique emails, unique lower-cased userNames, distinct ids and the required fields |
| AuthProperties.SecondRegistrationFails | server/src/controllers/authController.js:27-33 | after an email is registered, registering it again is never sent and changes nothing; with complete fields it is the 400 conflict |
| AuthProperties.RegisterAllPreservesInvariant | server/src/models/userModel.js:5 | emails and lower-cased userNames stay unique across any series of registrations |
| AuthProperties.VisibleNotBlank | server/src/controllers/authController.js:23 | a field whose first character is not white space is not blank |
| AuthProperties.RegisterAnnStores | server/src/controllers/authController.js:35 | registering Ann into an empty collection stores one user with userName "ann" |
| AuthProperties.RegisterAnnScenario | server/src/controllers/authController.js:27-61 | with tokens issued, that registration answers 201 with two cookies, and registering a@x.com again changes nothing |
| AuthProperties.LoginRejectsBlankFields | server/src/controllers/authController.js:76-78 | a blank email or password gives 400 "All fields are required" |
| AuthProperties.LoginUnknownEmail | server/src/controllers/authController.js:80-82 | no stored email equal to the given one gives 404 "User not found" |
| AuthProperties.LoginWrongPassword | server/src/controllers/authController.js:84-86 | a password comparison that resolves to false gives 401 "Invalid credentials" |
| AuthProperties.LoginThrownIff | server/src/controllers/authController.js:84-88 | for a stored email, login throws exactly when the password comparison rejects, or it matches and token generation rejects |
| AuthProperties.LoginSucceedsIff | server/src/controllers/authController.js:80-109 | login is sent exactly for a stored email whose password comparison resolves to true and whose tokens are issued: 201, success true, cookies with those tokens, its login projection or null by the read-back |

## Left out

- The async wrapper (`server/src/utils/AsyncHandler.js`) is covered only by the `Thrown`
  outcome. That outcome stands for `userName.toLowerCase()` on an absent `userName` and for a
  rejected `comparePassword` or `generateAccessAndRefreshToken`. Promise scheduling and the
  error middleware are not modelled.
- AuthController.Register: a rejection of the database calls themselves (`findOne`, `create`,
  `findById` failing rather than returning) is not an outcome of the model; the read-back is
  only found or not found.
- AuthController.Login: likewise, a rejected `findOne` or `findById` is not modelled.
- `comparePassword` and `generateAccessAndRefreshToken` are parameters. `userModel.js` defines
  neither method. The model does not say whether a refresh token is stored on the
  record, so the record has no `refreshToken` field.
- Password hashing is not modelled. The collection stores the password given to `create`.
- Request fields are strings or absent. A non-string field (where `trim` would throw) is not
  modelled.
- Text.IsWhitespace: covers the ASCII spaces and the common Unicode ones, not every Unicode
  space separator that JavaScript's `trim` removes.
- Text.ToLower: lower-cases ASCII letters only, not the full Unicode case mapping of
  `toLowerCase`.
- UserStore.UserCollection.Create: requires an unused email and non-empty required fields.
  The duplicate-key and validation errors of the database are not modelled, because
  `register` never reaches them.
- Concurrent registrations are not modelled.
- The database query machinery is reduced to a recursive search over a sequence.
  - `findOne` with `$or` and `findById` become `FindOne`.
  - `_id` is a counter, not an ObjectId.
  - The schema's strict mode would drop `userName`, which is not declared in the schema; it is
    kept.
  - The `__v` version key is not modelled.
  - Model caching (`mongoose.models.user`) is left out.
- The read-back after `create` and after login success is the boolean `readBackOk`. A failed
  read-back in `login` gives `{ user: null }`, as the code does.
- Cookie serialisation, the expiry that `clearCookie` adds, and JSON serialisation of the
  body are not modelled.
- `ApiError`'s `Error` base class (its `name` and the message given to `super`) is not
  modelled, nor what a captured stack trace contains.
- The database connection, process bootstrap, routing and middleware setup
  (`server/src/database/connection.js`, `server/server.js`, `server/app.js`) are I/O and
  wiring.
