/** The `register`, `login` and `logout` handlers over the user collection.

    Password comparison and token signing belong to code outside this model; they are
    parameters (`comparePassword`, `issue`) that return `None` when their promise rejects. Whether the database read that follows a write
    returns the document is the parameter `readBackOk`, and the `NODE_ENV === 'production'`
    test is the parameter `secure`. */
module AuthController {
  import opened Values
  import opened Text
  import opened ApiResponses
  import opened ApiErrors
  import opened UserModel
  import opened UserStore

  datatype RegisterBody = RegisterBody(name: Option<string>, email: Option<string>, password: Option<string>, userName: Option<string>)

  datatype LoginBody = LoginBody(email: Option<string>, password: Option<string>)

  /** What `generateAccessAndRefreshToken` resolves to. */
  datatype TokenPair = TokenPair(accessToken: string, refreshToken: string)

  /** The options object passed to `res.cookie` and `res.clearCookie`; `None` is a key left out. */
  datatype CookieOptions = CookieOptions(httpOnly: bool, secure: bool, sameSite: string, maxAge: Option<int>, path: Option<string>)

  /** One `res.cookie(name, value, options)` or `res.clearCookie(name, options)` call. */
  datatype CookieOp =
    | SetCookie(name: string, value: string, options: CookieOptions)
    | ClearCookie(name: string, options: CookieOptions)

  /** The `data` of a response: `null`, or `{ user }` where the user may be `null`. */
  datatype Payload = NoData | UserData(user: Option<Document>)

  /** How a request ends: an ApiError handed to `next`, an exception that reaches `next`
      through the async wrapper, or a response with its status, JSON body and cookie calls
      in call order. */
  datatype Outcome =
    | Forwarded(error: ApiError)
    | Thrown
    | Sent(statusCode: int, body: ApiResponse<Payload>, cookies: seq<CookieOp>)

  const RefreshTokenCookie := "refreshToken"
  const AccessTokenCookie := "accessToken"
  const RefreshTokenPath := "/api/users/refresh-token"
  /** 7 days and 15 minutes, in milliseconds. */
  const RefreshTokenMaxAge := 7 * 24 * 60 * 60 * 1000
  const AccessTokenMaxAge := 15 * 60 * 1000

  /** `!x?.trim()`: the field is absent or nothing is left once it is trimmed. */
  predicate Blank(x: Option<string>) {
    x.None? || Trim(x.value) == []
  }

  /** Blank means absent or white space only. */
  lemma BlankIff(x: Option<string>)
    ensures Blank(x) <==> x.None? || AllWhitespace(x.value)
  {
    if x.Some? {
      TrimEmptyIff(x.value);
    }
  }

  function RefreshCookieOptions(secure: bool): CookieOptions {
    CookieOptions(true, secure, "strict", Some(RefreshTokenMaxAge), Some(RefreshTokenPath))
  }

  function AccessCookieOptions(secure: bool): CookieOptions {
    CookieOptions(true, secure, "strict", Some(AccessTokenMaxAge), None)
  }

  /** The two cookies `register` and `login` attach: the refresh token first, the access token
      second, both http-only and same-site strict, with `secure` following the flag. */
  function SessionCookies(tokens: TokenPair, secure: bool): (c: seq<CookieOp>)
    ensures |c| == 2 && c[0].SetCookie? && c[1].SetCookie?
    ensures c[0].name == "refreshToken" && c[0].value == tokens.refreshToken
    ensures c[0].options.maxAge == Some(604800000) && c[0].options.path == Some("/api/users/refresh-token")
    ensures c[1].name == "accessToken" && c[1].value == tokens.accessToken
    ensures c[1].options.maxAge == Some(900000) && c[1].options.path == None
    ensures forall k :: 0 <= k < 2 ==>
      c[k].options.httpOnly && c[k].options.sameSite == "strict" && c[k].options.secure == secure
  {
    [SetCookie(RefreshTokenCookie, tokens.refreshToken, RefreshCookieOptions(secure)),
     SetCookie(AccessTokenCookie, tokens.accessToken, AccessCookieOptions(secure))]
  }

  /** The fields `register` leaves out of the user it returns. */
  const RegisterExcluded: set<Field> := {Password, RefreshToken}
  /** The fields `login` leaves out of the user it returns. */
  const LoginExcluded: set<Field> := {Password, RefreshToken, VerifyOtp, VerifyOtpExpireAt}

  /** The user `register` returns: every stored field except the password, with its stored
      value. The stored document has no refresh token field at all, so leaving out
      `refreshToken` removes nothing. */
  function RegisterProjection(u: UserRecord): (r: Document)
    ensures r.Keys == {Id, Name, Email, UserName, VerifyOtp, VerifyOtpExpireAt, IsAccauntVerified}
    ensures Password !in r && RefreshToken !in r
    ensures r[Id] == Number(u.id) && r[Name] == Text(u.name) && r[Email] == Text(u.email)
    ensures r[UserName] == Text(u.userName) && r[VerifyOtp] == Text(u.verifyOtp)
    ensures r[VerifyOtpExpireAt] == Number(u.verifyOtpExpireAt) && r[IsAccauntVerified] == Flag(u.isAccauntVerified)
  {
    Select(ToDocument(u), RegisterExcluded)
  }

  /** The user `login` returns: also without the OTP fields. */
  function LoginProjection(u: UserRecord): (r: Document)
    ensures r.Keys == {Id, Name, Email, UserName, IsAccauntVerified}
    ensures Password !in r && RefreshToken !in r && VerifyOtp !in r && VerifyOtpExpireAt !in r
    ensures r[Id] == Number(u.id) && r[Name] == Text(u.name) && r[Email] == Text(u.email)
    ensures r[UserName] == Text(u.userName) && r[IsAccauntVerified] == Flag(u.isAccauntVerified)
  {
    Select(ToDocument(u), LoginExcluded)
  }

  /** Validation passes: `name`, `email` and `password` are all non-blank. */
  predicate FieldsPresent(body: RegisterBody) {
    !Blank(body.name) && !Blank(body.email) && !Blank(body.password)
  }

  /** The existence check: some stored user has the email as given or the lower-cased user name. */
  predicate Taken(s: Store, body: RegisterBody)
    requires body.email.Some? && body.userName.Some?
  {
    FindOne(s.users, ByEmailOrUserName(body.email.value, ToLower(body.userName.value))).Some?
  }

  /** The record `register` creates for a request that passes both checks. */
  function Registered(s: Store, body: RegisterBody): UserRecord
    requires body.name.Some? && body.email.Some? && body.password.Some? && body.userName.Some?
  {
    NewUser(s.nextId, body.name.value, body.email.value, body.password.value, ToLower(body.userName.value))
  }

  /** What `register` leaves in the collection: the stored records untouched, and either
      nothing added or one record added under the next identifier. */
  function RegisterStore(s: Store, body: RegisterBody): (r: Store)
    ensures |s.users| <= |r.users| <= |s.users| + 1 && r.users[..|s.users|] == s.users
    ensures r.nextId == s.nextId + |r.users| - |s.users|
    ensures |r.users| == |s.users| + 1 ==> r.users[|s.users|].id == s.nextId
  {
    if FieldsPresent(body) && body.userName.Some? && !Taken(s, body) then
      assert (s.users + [Registered(s, body)])[..|s.users|] == s.users;
      Store(s.users + [Registered(s, body)], s.nextId + 1)
    else
      s
  }

  /** How `register` ends: a 400 or 500 ApiError, an exception, or a 201 response with the two
      session cookies whose envelope marks success. */
  function RegisterOutcome(s: Store, body: RegisterBody, secure: bool, readBackOk: bool,
                           issue: UserRecord -> Option<TokenPair>): (r: Outcome)
    ensures r.Forwarded? ==> !r.error.sucess && (r.error.statusCode == 400 || r.error.statusCode == 500)
    ensures r.Sent? ==> r.statusCode == 201 && r.body.status == 201 && r.body.success && |r.cookies| == 2
  {
    if !FieldsPresent(body) then
      Forwarded(NewError(400, "All fields are required", None, None))
    else if body.userName.None? then
      Thrown
    else if Taken(s, body) then
      Forwarded(NewError(400, "Uer already exists", None, None))
    else if !readBackOk then
      Forwarded(NewError(500, "User not created", None, None))
    else
      var user := Registered(s, body);
      var tokens := issue(user);
      if tokens.None? then
        // token generation rejects after the user was created
        Thrown
      else
        var response := NewResponse(201, UserData(Some(RegisterProjection(user))), "User registered successfully");
        Sent(201, response, SessionCookies(tokens.value, secure))
  }

  /** How `login` ends, a 400, 404 or 401 ApiError, an exception, or a 201 response with the two
      session cookies whose envelope marks success; it never changes the collection. */
  function LoginOutcome(users: seq<UserRecord>, body: LoginBody, secure: bool, readBackOk: bool,
                        comparePassword: (string, string) -> Option<bool>,
                        issue: UserRecord -> Option<TokenPair>): (r: Outcome)
    ensures r.Forwarded? ==>
      !r.error.sucess && (r.error.statusCode == 400 || r.error.statusCode == 404 || r.error.statusCode == 401)
    ensures r.Sent? ==> r.statusCode == 201 && r.body.status == 201 && r.body.success && |r.cookies| == 2
  {
    if Blank(body.email) || Blank(body.password) then
      Forwarded(NewError(400, "All fields are required", None, None))
    else
      match FindOne(users, ByEmail(body.email.value))
      case None => Forwarded(NewError(404, "User not found", None, None))
      case Some(k) =>
        var isPasswordValid := comparePassword(body.password.value, users[k].password);
        if isPasswordValid.None? then
          Thrown
        else if !isPasswordValid.value then
          Forwarded(NewError(401, "Invalid credentials", None, None))
        else
          var tokens := issue(users[k]);
          if tokens.None? then
            Thrown
          else
            var reloaded := if readBackOk then FindOne(users, ById(users[k].id)) else None;
            var userData := if reloaded.Some? then Some(LoginProjection(users[reloaded.value])) else None;
            var response := NewResponse(201, UserData(userData), "User registered successfully");
            Sent(201, response, SessionCookies(tokens.value, secure))
  }

  /** `register`, step by step as the handler runs: the method that `RegisterOutcome` and
      `RegisterStore` specify. */
  method Register(store: UserCollection, body: RegisterBody, secure: bool, readBackOk: bool,
                  issue: UserRecord -> Option<TokenPair>)
    returns (out: Outcome)
    requires store.Valid()
    modifies store
    ensures store.Valid()
    ensures out == RegisterOutcome(old(store.Snapshot()), body, secure, readBackOk, issue)
    ensures store.Snapshot() == RegisterStore(old(store.Snapshot()), body)
  {
    if Blank(body.name) || Blank(body.email) || Blank(body.password) {
      return Forwarded(NewError(400, "All fields are required", None, None));
    }
    if body.userName.None? {
      // `userName.toLowerCase()` on an absent field throws before the query is sent
      return Thrown;
    }
    var userName := ToLower(body.userName.value);
    var userExists := FindOne(store.users, ByEmailOrUserName(body.email.value, userName));
    if userExists.Some? {
      return Forwarded(NewError(400, "Uer already exists", None, None));
    }
    TrimmedNonEmpty(body.name.value);
    TrimmedNonEmpty(body.email.value);
    TrimmedNonEmpty(body.password.value);
    ghost var before := store.Snapshot();
    var user := store.Create(body.name.value, body.email.value, body.password.value, userName);
    assert store.Snapshot() == RegisterStore(before, body);
    FindByIdOfStored(store.Snapshot(), |store.users| - 1);
    var createdUser := if readBackOk then FindOne(store.users, ById(user.id)) else None;
    if createdUser.None? {
      return Forwarded(NewError(500, "User not created", None, None));
    }
    var projection := RegisterProjection(store.users[createdUser.value]);
    var issued := issue(user);
    if issued.None? {
      // the rejection reaches `next` with the user already stored
      return Thrown;
    }
    var tokens := issued.value;
    var cookies := [SetCookie(RefreshTokenCookie, tokens.refreshToken, RefreshCookieOptions(secure)),
                    SetCookie(AccessTokenCookie, tokens.accessToken, AccessCookieOptions(secure))];
    out := Sent(201, NewResponse(201, UserData(Some(projection)), "User registered successfully"), cookies);
  }

  /** `login`, step by step as the handler runs: the method that `LoginOutcome` specifies. It
      reads the collection and never writes it. */
  method Login(store: UserCollection, body: LoginBody, secure: bool, readBackOk: bool,
               comparePassword: (string, string) -> Option<bool>, issue: UserRecord -> Option<TokenPair>)
    returns (out: Outcome)
    ensures out == LoginOutcome(store.users, body, secure, readBackOk, comparePassword, issue)
  {
    if Blank(body.email) || Blank(body.password) {
      return Forwarded(NewError(400, "All fields are required", None, None));
    }
    var found := FindOne(store.users, ByEmail(body.email.value));
    if found.None? {
      return Forwarded(NewError(404, "User not found", None, None));
    }
    var user := store.users[found.value];
    var isPasswordValid := comparePassword(body.password.value, user.password);
    if isPasswordValid.None? {
      return Thrown;
    }
    if !isPasswordValid.value {
      return Forwarded(NewError(401, "Invalid credentials", None, None));
    }
    var issued := issue(user);
    if issued.None? {
      return Thrown;
    }
    var tokens := issued.value;
    var reloaded := if readBackOk then FindOne(store.users, ById(user.id)) else None;
    var userData := if reloaded.Some? then Some(LoginProjection(store.users[reloaded.value])) else None;
    var cookies := [SetCookie(RefreshTokenCookie, tokens.refreshToken, RefreshCookieOptions(secure)),
                    SetCookie(AccessTokenCookie, tokens.accessToken, AccessCookieOptions(secure))];
    out := Sent(201, NewResponse(201, UserData(userData), "User registered successfully"), cookies);
  }

  /** `logout`: clears both session cookies with the attributes they were set with and answers
      200 with no data. It takes no store, so it neither reads nor changes one. */
  method Logout(secure: bool) returns (out: Outcome)
    ensures out.Sent? && out.statusCode == 200
    ensures out.body == NewResponse(200, NoData, "Logged out successfully") && out.body.success
    ensures |out.cookies| == 2 && out.cookies[0].ClearCookie? && out.cookies[1].ClearCookie?
    ensures out.cookies[0].name == "refreshToken" && out.cookies[1].name == "accessToken"
    ensures forall k :: 0 <= k < 2 ==> out.cookies[k].options.maxAge == None
    ensures forall t: TokenPair, k :: 0 <= k < 2 ==>
      out.cookies[k].options == SessionCookies(t, secure)[k].options.(maxAge := None)
  {
    var cookies := [ClearCookie(RefreshTokenCookie, CookieOptions(true, secure, "strict", None, Some(RefreshTokenPath))),
                    ClearCookie(AccessTokenCookie, CookieOptions(true, secure, "strict", None, None))];
    out := Sent(200, NewResponse(200, NoData, "Logged out successfully"), cookies);
  }
}
