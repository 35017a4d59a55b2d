/** What the handlers promise, stated over RegisterOutcome, RegisterStore and LoginOutcome,
    together with the user projections they return. */
module AuthProperties {
  import opened Values
  import opened Text
  import opened ApiResponses
  import opened ApiErrors
  import opened UserModel
  import opened UserStore
  import opened AuthController

  /** Stored user names are lower-cased and no two users share one. */
  predicate UserNamesNormalised(users: seq<UserRecord>) {
    UniqueUserNames(users) && forall i :: 0 <= i < |users| ==> ToLower(users[i].userName) == users[i].userName
  }

  /** The invariant `register` keeps: the database's guarantees plus unique lower-cased user names. */
  predicate Invariant(s: Store) {
    s.Consistent() && UserNamesNormalised(s.users)
  }

  /** The request gets past validation and the existence check. */
  predicate Admissible(s: Store, body: RegisterBody) {
    !Blank(body.name) && !Blank(body.email) && !Blank(body.password) && body.userName.Some?
    && forall i :: 0 <= i < |s.users| ==>
         s.users[i].email != body.email.value && s.users[i].userName != ToLower(body.userName.value)
  }

  // ---------------------------------------------------------------- projections

  /** The login projection is the register projection without the two OTP fields. */
  lemma LoginProjectionFields(u: UserRecord)
    ensures LoginProjection(u) == Select(RegisterProjection(u), {VerifyOtp, VerifyOtpExpireAt})
  {
  }

  // ---------------------------------------------------------------- register

  /** Admissible is the negation of the two checks `register` makes. */
  lemma AdmissibleIff(s: Store, body: RegisterBody)
    ensures Admissible(s, body) <==> FieldsPresent(body) && body.userName.Some? && !Taken(s, body)
  {
    if FieldsPresent(body) && body.userName.Some? && Taken(s, body) {
      var k := FindOne(s.users, ByEmailOrUserName(body.email.value, ToLower(body.userName.value))).value;
      assert s.users[k].email == body.email.value || s.users[k].userName == ToLower(body.userName.value);
    }
  }

  lemma RegisterRejectsBlankFields(s: Store, body: RegisterBody, secure: bool, readBackOk: bool, issue: UserRecord -> Option<TokenPair>)
    requires Blank(body.name) || Blank(body.email) || Blank(body.password)
    ensures var out := RegisterOutcome(s, body, secure, readBackOk, issue);
      out.Forwarded? && out.error.statusCode == 400 && out.error.message == "All fields are required"
    ensures RegisterStore(s, body) == s
  {
  }

  /** `userName.toLowerCase()` on an absent user name throws, after validation and before any
      query. */
  lemma RegisterThrowsWithoutUserName(s: Store, body: RegisterBody, secure: bool, readBackOk: bool, issue: UserRecord -> Option<TokenPair>)
    requires FieldsPresent(body) && body.userName.None?
    ensures RegisterOutcome(s, body, secure, readBackOk, issue) == Thrown
    ensures RegisterStore(s, body) == s
  {
  }

  /** A stored user with the same email, or with the lower-cased user name, stops the request. */
  lemma RegisterRejectsTakenIdentity(s: Store, body: RegisterBody, secure: bool, readBackOk: bool, issue: UserRecord -> Option<TokenPair>, k: nat)
    requires FieldsPresent(body) && body.userName.Some?
    requires k < |s.users|
    requires s.users[k].email == body.email.value || s.users[k].userName == ToLower(body.userName.value)
    ensures var out := RegisterOutcome(s, body, secure, readBackOk, issue);
      out.Forwarded? && out.error.statusCode == 400 && out.error.message == "Uer already exists"
    ensures RegisterStore(s, body) == s
  {
    assert Matches(s.users[k], ByEmailOrUserName(body.email.value, ToLower(body.userName.value)));
  }

  /** The collection changes exactly when the request is admissible, and then by one new record
      with the lower-cased user name and the schema defaults. */
  lemma RegisterChangesStoreIff(s: Store, body: RegisterBody)
    ensures RegisterStore(s, body) != s <==> Admissible(s, body)
    ensures Admissible(s, body) ==>
      var after := RegisterStore(s, body);
      var u := after.users[|s.users|];
      after == Store(s.users + [u], s.nextId + 1) && u.id == s.nextId
      && u.name == body.name.value && u.email == body.email.value && u.password == body.password.value
      && u.userName == ToLower(body.userName.value)
      && u.verifyOtp == "" && u.verifyOtpExpireAt == 0 && !u.isAccauntVerified
  {
    AdmissibleIff(s, body);
    if Admissible(s, body) {
      assert |RegisterStore(s, body).users| == |s.users| + 1;
    }
  }

  /** A response is sent exactly when the request is admissible, the read-back finds the
      created user and token generation resolves; it is then a 201 carrying that user's
      projection and the two session cookies with the tokens issued for that user. */
  lemma RegisterSucceedsIff(s: Store, body: RegisterBody, secure: bool, readBackOk: bool, issue: UserRecord -> Option<TokenPair>)
    ensures var out := RegisterOutcome(s, body, secure, readBackOk, issue);
      (out.Sent? <==> Admissible(s, body) && readBackOk && issue(Registered(s, body)).Some?)
      && (out.Sent? ==>
            var u := RegisterStore(s, body).users[|s.users|];
            out.statusCode == 201 && out.body.status == 201 && out.body.success
            && out.body.message == "User registered successfully"
            && out.body.data == UserData(Some(RegisterProjection(u)))
            && out.cookies == SessionCookies(issue(u).value, secure))
  {
    AdmissibleIff(s, body);
    if Admissible(s, body) {
      assert RegisterStore(s, body).users[|s.users|] == Registered(s, body);
    }
  }

  /** When token generation rejects, the exception reaches `next` with the new user already
      stored, and no response or cookie goes out. */
  lemma RegisterTokensRejected(s: Store, body: RegisterBody, secure: bool, issue: UserRecord -> Option<TokenPair>)
    requires Admissible(s, body)
    requires issue(Registered(s, body)).None?
    ensures RegisterOutcome(s, body, secure, true, issue) == Thrown
    ensures var after := RegisterStore(s, body);
      |after.users| == |s.users| + 1 && after.users[|s.users|] == Registered(s, body)
  {
    AdmissibleIff(s, body);
  }

  /** When the read-back comes back empty the request fails with 500, yet the user stays stored. */
  lemma RegisterNotCreated(s: Store, body: RegisterBody, secure: bool, issue: UserRecord -> Option<TokenPair>)
    requires Admissible(s, body)
    ensures var out := RegisterOutcome(s, body, secure, false, issue);
      out.Forwarded? && out.error.statusCode == 500 && out.error.message == "User not created"
    ensures |RegisterStore(s, body).users| == |s.users| + 1
  {
    AdmissibleIff(s, body);
  }

  /** An ApiError other than the 500 leaves the collection as it was; an exception leaves it
      as it was exactly when it is thrown before the query, on an absent user name. */
  lemma RegisterFailureLeavesStore(s: Store, body: RegisterBody, secure: bool, readBackOk: bool, issue: UserRecord -> Option<TokenPair>)
    ensures var out := RegisterOutcome(s, body, secure, readBackOk, issue);
      out.Forwarded? && out.error.statusCode != 500 ==> RegisterStore(s, body) == s
    ensures RegisterOutcome(s, body, secure, readBackOk, issue).Thrown? ==>
      (RegisterStore(s, body) == s <==> body.userName.None?)
  {
    if FieldsPresent(body) && body.userName.Some? && !Taken(s, body) {
      assert |RegisterStore(s, body).users| == |s.users| + 1;
    }
  }

  /** Appending a lower-cased user name that nobody holds keeps the user names normalised. */
  lemma AppendKeepsUserNamesNormalised(users: seq<UserRecord>, u: UserRecord)
    requires UserNamesNormalised(users)
    requires ToLower(u.userName) == u.userName
    requires forall i :: 0 <= i < |users| ==> users[i].userName != u.userName
    ensures UserNamesNormalised(users + [u])
  {
    var after := users + [u];
    assert forall i :: 0 <= i < |users| ==> after[i] == users[i];
  }

  /** Appending a valid record with a fresh identifier and an unused email keeps the database's
      guarantees. */
  lemma AppendKeepsConsistent(s: Store, u: UserRecord)
    requires s.Consistent()
    requires HasRequiredFields(u) && u.id == s.nextId
    requires forall i :: 0 <= i < |s.users| ==> s.users[i].email != u.email
    ensures Store(s.users + [u], s.nextId + 1).Consistent()
  {
    var after := s.users + [u];
    assert forall i :: 0 <= i < |s.users| ==> after[i] == s.users[i];
  }

  /** `register` keeps unique emails, unique lower-cased user names, distinct identifiers and
      the required fields. */
  lemma RegisterPreservesInvariant(s: Store, body: RegisterBody)
    requires Invariant(s)
    ensures Invariant(RegisterStore(s, body))
  {
    AdmissibleIff(s, body);
    if Admissible(s, body) {
      var u := Registered(s, body);
      TrimmedNonEmpty(body.name.value);
      TrimmedNonEmpty(body.email.value);
      TrimmedNonEmpty(body.password.value);
      ToLowerIdempotent(body.userName.value);
      AppendKeepsConsistent(s, u);
      AppendKeepsUserNamesNormalised(s.users, u);
    }
  }

  /** Once an email is registered, registering it again fails and changes nothing. */
  lemma SecondRegistrationFails(s: Store, first: RegisterBody, second: RegisterBody, secure: bool,
                                readBackOk: bool, issue: UserRecord -> Option<TokenPair>)
    requires Admissible(s, first)
    requires second.email == first.email
    ensures var mid := RegisterStore(s, first);
      var out := RegisterOutcome(mid, second, secure, readBackOk, issue);
      !out.Sent? && RegisterStore(mid, second) == mid
      && (FieldsPresent(second) && second.userName.Some? ==>
            out.Forwarded? && out.error.statusCode == 400 && out.error.message == "Uer already exists")
  {
    var mid := RegisterStore(s, first);
    RegisterChangesStoreIff(s, first);
    assert mid.users[|s.users|].email == second.email.value;
    assert !Admissible(mid, second);
    RegisterChangesStoreIff(mid, second);
    RegisterSucceedsIff(mid, second, secure, readBackOk, issue);
    if FieldsPresent(second) && second.userName.Some? {
      RegisterRejectsTakenIdentity(mid, second, secure, readBackOk, issue, |s.users|);
    }
  }

  /** The collection after a series of registrations. */
  function RegisterAll(s: Store, bodies: seq<RegisterBody>): Store
    decreases |bodies|
  {
    if bodies == [] then s else RegisterAll(RegisterStore(s, bodies[0]), bodies[1..])
  }

  /** Emails and lower-cased user names stay unique across any series of registrations. */
  lemma {:induction false} RegisterAllPreservesInvariant(s: Store, bodies: seq<RegisterBody>)
    requires Invariant(s)
    ensures Invariant(RegisterAll(s, bodies))
    ensures UniqueEmails(RegisterAll(s, bodies).users) && UniqueUserNames(RegisterAll(s, bodies).users)
    decreases |bodies|
  {
    if bodies != [] {
      RegisterPreservesInvariant(s, bodies[0]);
      RegisterAllPreservesInvariant(RegisterStore(s, bodies[0]), bodies[1..]);
    }
  }

  /** A field whose first character is not white space is not blank. */
  lemma VisibleNotBlank(x: string)
    requires x != [] && !IsWhitespace(x[0])
    ensures !Blank(Some(x))
  {
    BlankIff(Some(x));
  }

  function Ann(): RegisterBody {
    RegisterBody(Some("Ann"), Some("a@x.com"), Some("secret1"), Some("Ann"))
  }

  /** Registering Ann into an empty collection stores one user whose user name is "ann". */
  lemma RegisterAnnStores()
    ensures Admissible(Store([], 0), Ann())
    ensures var after := RegisterStore(Store([], 0), Ann());
      |after.users| == 1 && after.users[0].userName == "ann" && after.users[0].email == "a@x.com"
  {
    assert ToLower("Ann") == "ann" by {
      assert ToLower("Ann")[0] == 'a';
    }
    VisibleNotBlank("Ann");
    VisibleNotBlank("a@x.com");
    VisibleNotBlank("secret1");
    RegisterChangesStoreIff(Store([], 0), Ann());
  }

  /** ... answers 201 with two cookies, and a second registration of a@x.com changes nothing. */
  lemma RegisterAnnScenario(secure: bool, issue: UserRecord -> Option<TokenPair>)
    requires issue(Registered(Store([], 0), Ann())).Some?
    ensures var out := RegisterOutcome(Store([], 0), Ann(), secure, true, issue);
      out.Sent? && out.statusCode == 201 && |out.cookies| == 2
    ensures var after := RegisterStore(Store([], 0), Ann());
      RegisterStore(after, RegisterBody(Some("Bob"), Some("a@x.com"), Some("pw"), Some("bob"))) == after
  {
    RegisterAnnStores();
    RegisterSucceedsIff(Store([], 0), Ann(), secure, true, issue);
    SecondRegistrationFails(Store([], 0), Ann(), RegisterBody(Some("Bob"), Some("a@x.com"), Some("pw"), Some("bob")), secure, true, issue);
  }

  // ---------------------------------------------------------------- login

  lemma LoginRejectsBlankFields(users: seq<UserRecord>, body: LoginBody, secure: bool, readBackOk: bool,
                                comparePassword: (string, string) -> Option<bool>, issue: UserRecord -> Option<TokenPair>)
    requires Blank(body.email) || Blank(body.password)
    ensures var out := LoginOutcome(users, body, secure, readBackOk, comparePassword, issue);
      out.Forwarded? && out.error.statusCode == 400 && out.error.message == "All fields are required"
  {
  }

  /** No stored email equal to the given one, character for character: 404. */
  lemma LoginUnknownEmail(users: seq<UserRecord>, body: LoginBody, secure: bool, readBackOk: bool,
                          comparePassword: (string, string) -> Option<bool>, issue: UserRecord -> Option<TokenPair>)
    requires !Blank(body.email) && !Blank(body.password)
    requires forall i :: 0 <= i < |users| ==> users[i].email != body.email.value
    ensures var out := LoginOutcome(users, body, secure, readBackOk, comparePassword, issue);
      out.Forwarded? && out.error.statusCode == 404 && out.error.message == "User not found"
  {
  }

  /** The stored user's password does not match: 401. */
  lemma LoginWrongPassword(users: seq<UserRecord>, body: LoginBody, secure: bool, readBackOk: bool,
                           comparePassword: (string, string) -> Option<bool>, issue: UserRecord -> Option<TokenPair>, k: nat)
    requires UniqueEmails(users)
    requires !Blank(body.email) && !Blank(body.password)
    requires k < |users| && users[k].email == body.email.value
    requires comparePassword(body.password.value, users[k].password) == Some(false)
    ensures var out := LoginOutcome(users, body, secure, readBackOk, comparePassword, issue);
      out.Forwarded? && out.error.statusCode == 401 && out.error.message == "Invalid credentials"
  {
    assert Matches(users[k], ByEmail(body.email.value));
  }

  /** Login succeeds exactly for a stored email whose password matches and whose tokens are
      issued, and then answers 201 with cookies holding those tokens and, when the read-back
      finds it, that user's login projection. */
  lemma LoginSucceedsIff(s: Store, body: LoginBody, secure: bool, readBackOk: bool,
                         comparePassword: (string, string) -> Option<bool>, issue: UserRecord -> Option<TokenPair>, k: nat)
    requires s.Consistent()
    requires k < |s.users| && body.email.Some? && s.users[k].email == body.email.value
    ensures var out := LoginOutcome(s.users, body, secure, readBackOk, comparePassword, issue);
      (out.Sent? <==> !Blank(body.email) && !Blank(body.password)
                      && comparePassword(body.password.value, s.users[k].password) == Some(true)
                      && issue(s.users[k]).Some?)
      && (out.Sent? ==>
            out.statusCode == 201 && out.body.status == 201 && out.body.success
            && out.cookies == SessionCookies(issue(s.users[k]).value, secure)
            && out.body.data == UserData(if readBackOk then Some(LoginProjection(s.users[k])) else None))
  {
    assert Matches(s.users[k], ByEmail(body.email.value));
    var found := FindOne(s.users, ByEmail(body.email.value));
    assert found == Some(k) by {
      assert found.value <= k;
    }
    FindByIdOfStored(s, k);
    var tokens := issue(s.users[k]);
    if !Blank(body.email) && !Blank(body.password) {
      var valid := comparePassword(body.password.value, s.users[k].password);
      if valid == Some(true) && tokens.Some? {
        var userData := if readBackOk then Some(LoginProjection(s.users[k])) else None;
        var response := NewResponse(201, UserData(userData), "User registered successfully");
        assert LoginOutcome(s.users, body, secure, readBackOk, comparePassword, issue)
            == Sent(201, response, SessionCookies(tokens.value, secure));
      } else if valid.None? || (tokens.None? && valid == Some(true)) {
        assert LoginOutcome(s.users, body, secure, readBackOk, comparePassword, issue) == Thrown;
      } else {
        assert LoginOutcome(s.users, body, secure, readBackOk, comparePassword, issue).Forwarded?;
      }
    }
  }

  /** For a stored email, login throws exactly when the password comparison rejects, or when it
      matches and token generation rejects. */
  lemma LoginThrownIff(users: seq<UserRecord>, body: LoginBody, secure: bool, readBackOk: bool,
                       comparePassword: (string, string) -> Option<bool>, issue: UserRecord -> Option<TokenPair>, k: nat)
    requires UniqueEmails(users)
    requires !Blank(body.email) && !Blank(body.password)
    requires k < |users| && users[k].email == body.email.value
    ensures var valid := comparePassword(body.password.value, users[k].password);
      LoginOutcome(users, body, secure, readBackOk, comparePassword, issue).Thrown?
      <==> valid.None? || (valid == Some(true) && issue(users[k]).None?)
  {
    assert Matches(users[k], ByEmail(body.email.value));
    var found := FindOne(users, ByEmail(body.email.value));
    assert found == Some(k) by {
      assert found.value <= k;
    }
  }
}
