/** The authentication use case: registration with its input rules, and
    login with e-mail and password.

    Outside the model and passed in: the e-mail address parser
    (net/mail.ParseAddress) as `parses`, bcrypt as `hash` and `compare`,
    the token issuer as `tokens`, the fresh user id and the clock. */
module AuthService {
  import opened Domain
  import opened Text
  import opened Store

  datatype RegisterInput = RegisterInput(username: string, email: string, password: string, role: string)
  datatype LoginInput = LoginInput(email: string, password: string)
  datatype AuthResponse = AuthResponse(token: string, expiresAt: Time, userId: Uuid, username: string, email: string, role: string)

  // ---------------------------------------------------------------------
  // Character classes and the patterns over them
  // ---------------------------------------------------------------------

  /** The classes [a-z], [A-Z], [0-9] and [^a-zA-Z0-9]. */
  datatype CharClass = LowerClass | UpperClass | DigitClass | OtherClass

  predicate InClass(c: char, cls: CharClass) {
    match cls
    case LowerClass => IsAsciiLower(c)
    case UpperClass => IsAsciiUpper(c)
    case DigitClass => IsAsciiDigit(c)
    case OtherClass => !IsAsciiAlnum(c)
  }

  /** An unanchored match of a one-class pattern: the scan finds a
      character of the class somewhere in s. */
  function MatchesClass(s: string, cls: CharClass): bool {
    s != [] && (InClass(s[0], cls) || MatchesClass(s[1..], cls))
  }

  lemma {:induction false} MatchesClassIff(s: string, cls: CharClass)
    ensures MatchesClass(s, cls) <==> exists k :: 0 <= k < |s| && InClass(s[k], cls)
  {
    if s != [] {
      MatchesClassIff(s[1..], cls);
      if exists k :: 0 <= k < |s| && InClass(s[k], cls) {
        var k :| 0 <= k < |s| && InClass(s[k], cls);
        if k > 0 { assert s[1..][k - 1] == s[k]; }
      }
      if exists k :: 0 <= k < |s| - 1 && InClass(s[1..][k], cls) {
        var k :| 0 <= k < |s| - 1 && InClass(s[1..][k], cls);
        assert s[k + 1] == s[1..][k];
      }
    }
  }

  /** The anchored pattern ^[a-zA-Z0-9]+$: one or more ASCII letters or
      digits and nothing else. */
  function MatchesUsernamePattern(s: string): bool {
    s != [] && IsAsciiAlnum(s[0]) && (|s| == 1 || MatchesUsernamePattern(s[1..]))
  }

  lemma {:induction false} MatchesUsernamePatternIff(s: string)
    ensures MatchesUsernamePattern(s) <==> s != [] && forall k :: 0 <= k < |s| ==> IsAsciiAlnum(s[k])
  {
    if |s| > 1 {
      MatchesUsernamePatternIff(s[1..]);
      assert forall k :: 1 <= k < |s| ==> s[k] == s[1..][k - 1];
    }
  }

  // ---------------------------------------------------------------------
  // Input rules
  // ---------------------------------------------------------------------

  /** isValidPassword: at least eight bytes, and a lower-case letter, an
      upper-case letter, a digit and some other character somewhere. */
  function IsValidPassword(password: string): bool {
    if ByteLen(password) < 8 then false
    else
      MatchesClass(password, LowerClass) && MatchesClass(password, UpperClass)
      && MatchesClass(password, DigitClass) && MatchesClass(password, OtherClass)
  }

  lemma PasswordRule(password: string)
    ensures IsValidPassword(password) <==>
      && ByteLen(password) >= 8
      && (exists k :: 0 <= k < |password| && IsAsciiLower(password[k]))
      && (exists k :: 0 <= k < |password| && IsAsciiUpper(password[k]))
      && (exists k :: 0 <= k < |password| && IsAsciiDigit(password[k]))
      && (exists k :: 0 <= k < |password| && !IsAsciiAlnum(password[k]))
  {
    MatchesClassIff(password, LowerClass);
    MatchesClassIff(password, UpperClass);
    MatchesClassIff(password, DigitClass);
    MatchesClassIff(password, OtherClass);
  }

  /** A valid password is never blank, so login does not refuse it as
      blank. */
  lemma ValidPasswordNotBlank(password: string)
    requires IsValidPassword(password)
    ensures TrimSpace(password) != []
  {
    PasswordRule(password);
    var k :| 0 <= k < |password| && IsAsciiLower(password[k]);
    TrimSpaceEnds(password);
  }

  /** The username rule: not blank and matching the pattern, which is
      applied to the input as given. */
  function ValidUsername(username: string): bool {
    TrimSpace(username) != [] && MatchesUsernamePattern(username)
  }

  /** A nonempty text of ASCII letters and digits is its own trim. */
  lemma AlnumIsTrimmed(s: string)
    requires s != [] && forall k :: 0 <= k < |s| ==> IsAsciiAlnum(s[k])
    ensures TrimSpace(s) == s
  {
    assert IsAsciiAlnum(s[0]) && IsAsciiAlnum(s[|s| - 1]);
    TrimSpaceOfTrimmed(s);
  }

  /** The blank test adds nothing to the pattern, and a valid username is
      already trimmed. */
  lemma UsernameRule(username: string)
    ensures ValidUsername(username) <==> username != [] && forall k :: 0 <= k < |username| ==> IsAsciiAlnum(username[k])
    ensures ValidUsername(username) ==> TrimSpace(username) == username
  {
    MatchesUsernamePatternIff(username);
    if username != [] && forall k :: 0 <= k < |username| ==> IsAsciiAlnum(username[k]) {
      AlnumIsTrimmed(username);
    }
  }

  /** validateEmail: blank is "cannot be empty", an address the parser
      refuses is "invalid format". */
  function ValidateEmail(email: string, parses: string -> bool): (r: Option<Error>)
    ensures r.None? <==> TrimSpace(email) != [] && parses(TrimSpace(email))
    ensures r.Some? ==> r.value == (if TrimSpace(email) == [] then EmailCannotEmpty else InvalidEmailFormat)
  {
    var e := TrimSpace(email);
    if e == [] then Some(EmailCannotEmpty)
    else if !parses(e) then Some(InvalidEmailFormat)
    else None
  }

  /** resolveRole: "admin" in any case and with any surrounding space is the
      administrator role; everything else is the user role. */
  function ResolveRole(role: string): Role {
    if ToLower(TrimSpace(role)) == ROLE_ADMIN.name then ROLE_ADMIN else ROLE_USER
  }

  lemma ResolveRoleIff(role: string)
    ensures ResolveRole(role) == ROLE_ADMIN <==> ToLower(TrimSpace(role)) == "admin"
    ensures ResolveRole(role) != ROLE_ADMIN ==> ResolveRole(role) == ROLE_USER
  {
  }

  /** A nonempty text of ASCII lower-case letters is unchanged by
      trimming and lowering. */
  lemma LowerWordFixed(s: string)
    requires s != [] && forall k :: 0 <= k < |s| ==> IsAsciiLower(s[k])
    ensures ToLower(TrimSpace(s)) == s
  {
    AlnumIsTrimmed(s);
    assert forall k :: 0 <= k < |s| ==> LowerChar(s[k]) == s[k];
  }

  lemma RoleNamesFixed()
    ensures ToLower(TrimSpace(ROLE_ADMIN.name)) == ROLE_ADMIN.name
    ensures ToLower(TrimSpace(ROLE_USER.name)) == ROLE_USER.name
  {
    LowerWordFixed(ROLE_ADMIN.name);
    LowerWordFixed(ROLE_USER.name);
  }

  /** Resolving the name of a resolved role gives the same role. */
  lemma ResolveRoleIdempotent(role: string)
    ensures ResolveRole(ResolveRole(role).name) == ResolveRole(role)
  {
    RoleNamesFixed();
    assert ROLE_USER.name != ROLE_ADMIN.name;
  }

  /** The e-mail and username under which a registration is stored. */
  function NormalEmail(email: string): string { ToLower(TrimSpace(email)) }
  function NormalUsername(username: string): string { TrimSpace(username) }

  /** validateRegisterInput: the username, the e-mail, the password, then
      whether the e-mail and then the username are taken; the first rule
      broken is the error. */
  function ValidateRegisterInput(users: seq<User>, input: RegisterInput, parses: string -> bool): Option<Error> {
    if !ValidUsername(input.username) then Some(InvalidUsernameFormat)
    else if ValidateEmail(input.email, parses).Some? then ValidateEmail(input.email, parses)
    else if !IsValidPassword(input.password) then Some(InvalidPasswordFormat)
    else if FirstUser(users, Some(NormalEmail(input.email)), None).Some? then Some(EmailAlreadyExists)
    else if FirstUser(users, None, Some(NormalUsername(input.username))).Some? then Some(UsernameAlreadyExists)
    else None
  }

  /** A registration is valid exactly when every rule holds. */
  lemma ValidateRegisterIff(users: seq<User>, input: RegisterInput, parses: string -> bool)
    ensures ValidateRegisterInput(users, input, parses).None? <==>
      && ValidUsername(input.username)
      && ValidateEmail(input.email, parses).None?
      && IsValidPassword(input.password)
      && (forall u :: u in users ==> u.email != NormalEmail(input.email))
      && (forall u :: u in users ==> u.username != NormalUsername(input.username))
  {
    var byEmail := FirstUser(users, Some(NormalEmail(input.email)), None);
    var byName := FirstUser(users, None, Some(NormalUsername(input.username)));
    if byEmail.Some? {
      assert byEmail.value in users && byEmail.value.email == NormalEmail(input.email);
    }
    if byName.Some? {
      assert byName.value in users && byName.value.username == NormalUsername(input.username);
    }
  }

  /** The order of the checks: each error is reported only when every
      earlier rule holds. */
  lemma RegisterCheckOrder(users: seq<User>, input: RegisterInput, parses: string -> bool)
    ensures var r := ValidateRegisterInput(users, input, parses);
      && (r == Some(InvalidUsernameFormat) <==> !ValidUsername(input.username))
      && (r == Some(EmailCannotEmpty) || r == Some(InvalidEmailFormat) ==> ValidUsername(input.username))
      && (r == Some(InvalidPasswordFormat) ==> ValidUsername(input.username) && ValidateEmail(input.email, parses).None?)
  {
    var r := ValidateRegisterInput(users, input, parses);
    var ve := ValidateEmail(input.email, parses);
    if !ValidUsername(input.username) {
      assert r == Some(InvalidUsernameFormat);
    } else if ve.Some? {
      assert r == ve && (ve.value == EmailCannotEmpty || ve.value == InvalidEmailFormat);
    } else if !IsValidPassword(input.password) {
      assert r == Some(InvalidPasswordFormat);
    } else {
      assert r.None? || r == Some(EmailAlreadyExists) || r == Some(UsernameAlreadyExists);
    }
  }

  /** The e-mail is looked up before the username, and both only for input
      that passes the format rules. */
  lemma RegisterTakenOrder(users: seq<User>, input: RegisterInput, parses: string -> bool)
    ensures var r := ValidateRegisterInput(users, input, parses);
      && (r == Some(EmailAlreadyExists) ==>
            ValidUsername(input.username) && ValidateEmail(input.email, parses).None? && IsValidPassword(input.password)
            && exists u :: u in users && u.email == NormalEmail(input.email))
      && (r == Some(UsernameAlreadyExists) ==>
            ValidUsername(input.username) && ValidateEmail(input.email, parses).None? && IsValidPassword(input.password)
            && (forall u :: u in users ==> u.email != NormalEmail(input.email))
            && exists u :: u in users && u.username == NormalUsername(input.username))
  {
  }

  /** The user row a registration writes. */
  function NewUser(id: Uuid, input: RegisterInput, hashed: string, now: Time): User {
    User(id, NormalUsername(input.username), NormalEmail(input.email), hashed, ResolveRole(input.role), now, now)
  }

  /** A registration that passes validation can only be refused by the
      store for a taken id. */
  lemma ValidatedUserIsUnique(users: seq<User>, input: RegisterInput, parses: string -> bool, id: Uuid, hashed: string, now: Time)
    requires ValidateRegisterInput(users, input, parses).None?
    requires forall u :: u in users ==> u.id != id
    ensures var u := NewUser(id, input, hashed, now);
      forall v :: v in users ==> v.id != u.id && v.username != u.username && v.email != u.email
  {
    ValidateRegisterIff(users, input, parses);
  }

  // ---------------------------------------------------------------------
  // Tokens
  // ---------------------------------------------------------------------

  /** issueToken: the signed token, its expiry one time-to-live from now,
      and the user's id, name, e-mail and role. */
  function IssueToken(u: User, tokens: User -> Result<string>, now: Time, ttl: Duration): (r: Result<AuthResponse>)
    ensures r.Ok? <==> tokens(u).Ok?
    ensures r.Ok? ==> r.value == AuthResponse(tokens(u).value, now + ttl, u.id, u.username, u.email, u.role.name)
  {
    match tokens(u)
    case Err(e) => Err(e)
    case Ok(token) => Ok(AuthResponse(token, now + ttl, u.id, u.username, u.email, u.role.name))
  }

  // ---------------------------------------------------------------------
  // Register and Login
  // ---------------------------------------------------------------------

  /** No stored user has the id, the username or the e-mail of u. */
  predicate Unique(users: seq<User>, u: User) {
    forall v :: v in users ==> v.id != u.id && v.username != u.username && v.email != u.email
  }

  /** The last step of Register: the store refuses a user whose id,
      username or e-mail is taken; a stored user gets a token. */
  function InsertSpec(users: seq<User>, u: User, tokens: User -> Result<string>, now: Time, ttl: Duration): (Result<AuthResponse>, seq<User>) {
    if !Unique(users, u) then (Err(DuplicateKey("users")), users)
    else (IssueToken(u, tokens, now, ttl), users + [u])
  }

  /** What Register returns, and the user table after it. */
  function RegisterSpec(users: seq<User>, input: RegisterInput, parses: string -> bool, hash: string -> Result<string>,
                        id: Uuid, now: Time, tokens: User -> Result<string>, ttl: Duration): (Result<AuthResponse>, seq<User>)
  {
    var invalid := ValidateRegisterInput(users, input, parses);
    if invalid.Some? then (Err(invalid.value), users)
    else match hash(input.password)
      case Err(e) => (Err(e), users)
      case Ok(hashed) => InsertSpec(users, NewUser(id, input, hashed, now), tokens, now, ttl)
  }

  /** Login, over the user table. */
  function Login(users: seq<User>, input: LoginInput, compare: (string, string) -> bool,
                     tokens: User -> Result<string>, now: Time, ttl: Duration): Result<AuthResponse>
  {
    if TrimSpace(input.email) == [] || TrimSpace(input.password) == [] then Err(InvalidCredentials)
    else match FirstUser(users, Some(NormalEmail(input.email)), None)
      case None => Err(InvalidCredentials)
      case Some(u) => if !compare(input.password, u.password) then Err(InvalidCredentials) else IssueToken(u, tokens, now, ttl)
  }

  /** A registration stores one user, under the trimmed username and the
      trimmed lower-cased e-mail, with the resolved role; a refused one
      stores nothing. */
  lemma RegisterStores(users: seq<User>, input: RegisterInput, parses: string -> bool, hash: string -> Result<string>,
                       id: Uuid, now: Time, tokens: User -> Result<string>, ttl: Duration)
    ensures var (r, users') := RegisterSpec(users, input, parses, hash, id, now, tokens, ttl);
      && (users' == users || (
            && ValidateRegisterInput(users, input, parses).None?
            && hash(input.password).Ok?
            && users' == users + [User(id, TrimSpace(input.username), ToLower(TrimSpace(input.email)),
                                       hash(input.password).value, ResolveRole(input.role), now, now)]))
      && (r.Ok? ==> users' != users && r.value.userId == id && r.value.email == ToLower(TrimSpace(input.email)))
      && (ValidateRegisterInput(users, input, parses).Some? ==> r == Err(ValidateRegisterInput(users, input, parses).value))
  {
  }

  /** Login refuses with "invalid credentials" a blank e-mail or password,
      an e-mail no user has, and a password the stored hash does not
      match. */
  lemma LoginRefusals(users: seq<User>, input: LoginInput, compare: (string, string) -> bool,
                      tokens: User -> Result<string>, now: Time, ttl: Duration)
    ensures TrimSpace(input.email) == [] || TrimSpace(input.password) == [] ==>
      Login(users, input, compare, tokens, now, ttl) == Err(InvalidCredentials)
    ensures (forall u :: u in users ==> u.email != NormalEmail(input.email)) ==>
      Login(users, input, compare, tokens, now, ttl) == Err(InvalidCredentials)
    ensures (forall u :: u in users && u.email == NormalEmail(input.email) ==> !compare(input.password, u.password)) ==>
      Login(users, input, compare, tokens, now, ttl) == Err(InvalidCredentials)
    ensures Login(users, input, compare, tokens, now, ttl).Ok? ==>
      exists u :: u in users && u.email == NormalEmail(input.email) && compare(input.password, u.password)
        && Login(users, input, compare, tokens, now, ttl) == IssueToken(u, tokens, now, ttl)
  {
  }

  /** A user who has just registered can log in with the same e-mail and
      password, provided the hash of a password matches it and the token
      is issued. */
  lemma {:induction false} RegisterThenLogin(users: seq<User>, input: RegisterInput, parses: string -> bool,
                                             hash: string -> Result<string>, compare: (string, string) -> bool,
                                             id: Uuid, now: Time, tokens: User -> Result<string>, ttl: Duration)
    requires RegisterSpec(users, input, parses, hash, id, now, tokens, ttl).0.Ok?
    requires compare(input.password, hash(input.password).value)
    ensures var users' := RegisterSpec(users, input, parses, hash, id, now, tokens, ttl).1;
      Login(users', LoginInput(input.email, input.password), compare, tokens, now, ttl)
        == RegisterSpec(users, input, parses, hash, id, now, tokens, ttl).0
  {
    var u := NewUser(id, input, hash(input.password).value, now);
    ValidPasswordNotBlank(input.password);
    assert TrimSpace(input.email) != [];
    FirstUserAppend(users, u, NormalEmail(input.email));
  }

  /** Looking up an e-mail no stored user has, after appending a user with
      it, finds the appended user. */
  lemma {:induction false} FirstUserAppend(users: seq<User>, u: User, email: string)
    requires forall v :: v in users ==> v.email != email
    requires u.email == email
    ensures FirstUser(users + [u], Some(email), None) == Some(u)
    decreases |users|
  {
    if users == [] {
      assert users + [u] == [u];
    } else {
      assert (users + [u])[1..] == users[1..] + [u];
      assert users[0] in users;
      FirstUserAppend(users[1..], u, email);
    }
  }

  class AuthService {
    const db: Db

    constructor (db: Db)
      ensures this.db == db
    {
      this.db := db;
    }

    method Register(input: RegisterInput, parses: string -> bool, hash: string -> Result<string>,
                    id: Uuid, now: Time, tokens: User -> Result<string>, ttl: Duration) returns (r: Result<AuthResponse>)
      requires db.Valid()
      modifies db`users
      ensures db.Valid()
      ensures (r, db.users) == RegisterSpec(old(db.users), input, parses, hash, id, now, tokens, ttl)
    {
      var invalid := ValidateRegisterInput(db.users, input, parses);
      if invalid.Some? {
        return Err(invalid.value);
      }
      var hashed := hash(input.password);
      if hashed.Err? {
        return Err(hashed.error);
      }
      r := Insert(NewUser(id, input, hashed.value, now), tokens, now, ttl);
    }

    method Insert(u: User, tokens: User -> Result<string>, now: Time, ttl: Duration) returns (r: Result<AuthResponse>)
      requires db.Valid()
      modifies db`users
      ensures db.Valid()
      ensures (r, db.users) == InsertSpec(old(db.users), u, tokens, now, ttl)
    {
      var created := db.CreateUser(u);
      if created.Fail? {
        return Err(created.error);
      }
      r := IssueToken(u, tokens, now, ttl);
    }
  }
}
