/**
  The authentication service (src/v1/Auth/Service/auth.service.ts): signup with
  a verification mail, signin, signout through a revocation store, credential
  lookup, account recovery and account verification.

  The stores are state of the `AuthService` object: the users collection (a map
  from `_id` to the row), the Redis revocation store (token string to TTL in
  seconds) and the mail outbox. The JWT signer and decoder and the HMAC-SHA256
  digest are functions fixed at construction and left uninterpreted. The clock
  (`Date.now()`, in milliseconds), the password `keymachine` generates, the id the
  store assigns and store or mail failures are parameters of the operations.
*/
module Auth {
  import opened Common
  import opened Js
  import opened Http

  /** A row of the users collection. Timestamps are clock values. */
  datatype User = User(
    email: string,
    username: string,
    password: string,
    fullName: string,
    isVerified: bool,
    createdAt: int,
    updatedAt: int)

  /** The users collection, keyed by `_id`. */
  type Directory = map<string, User>

  datatype CreateAccountDto = CreateAccountDto(email: string, username: string, password: string, fullName: string)

  /** The signin form; an absent `email` or `username` is the empty string. */
  datatype LoginDto = LoginDto(email: string, username: string, password: string)

  datatype AccountRecoveryDto = AccountRecoveryDto(email: string)

  datatype Mail = Mail(receiver: string, subject: string, text: string)

  /** The payload of the verification token: `{id, email, exp}`, `exp` in seconds. */
  datatype VerificationClaims = VerificationClaims(id: string, email: string, exp: int)

  /** The payload of the access token: `{_id, username, email, created_at}`. */
  datatype SessionClaims = SessionClaims(id: string, username: string, email: string, createdAt: int)

  /** What `jwtService.decode` reads back from a token: its `exp` and `email` claims, when present. */
  datatype Decoded = Decoded(exp: Option<int>, email: Option<string>)

  /**
    How the collaborators behave on one call: whether a save is rejected for a
    reason other than a duplicate (and the store's `errmsg` in either case), and
    whether the mail service throws.
  */
  datatype Faults = Faults(storeDown: bool, storeMessage: string, mailDown: bool)

  const ValidityWindow: int := 15 * 60
  const NoMatchingAccount := "Couldn't find an account that matching with this email and password in the database."
  const NoSuchEmail := "This email does not exist in the database."
  const TokenExpired := "Incoming token is expired."
  const TokenNotValid := "Incoming token is not valid."

  /** The unique indexes of the users collection: no two rows share an email or a username. */
  ghost predicate UniqueAccounts(users: Directory) {
    forall a, b :: a in users && b in users && a != b ==>
      users[a].email != users[b].email && users[a].username != users[b].username
  }

  /** Rewriting a row without touching its email or username keeps the accounts unique. */
  lemma SameKeysKeepUnique(users: Directory, id: string, u: User)
    requires UniqueAccounts(users) && id in users
    requires u.email == users[id].email && u.username == users[id].username
    ensures UniqueAccounts(users[id := u])
  {
  }

  /** A new row whose email and username are both free keeps the accounts unique. */
  lemma FreshAccountKeepsUnique(users: Directory, id: string, u: User)
    requires UniqueAccounts(users) && id !in users && !Taken(users, u.email, u.username)
    ensures UniqueAccounts(users[id := u])
  {
  }

  /** The fixed texts of the replies and mails. */
  const SignedUp := "Account has been registered successfully to the database."
  const SignedIn := "User successfully has been signed in."
  const Verified := "Account has been verified."
  const VerificationLinkPath := "/api/v1/auth/account-verification?token="
  const VerificationSubject := "Verify Your Account ["
  const RecoverySubject := "Account Recovery ["
  const RecoveryTextStart := "By your request we have set your password as '"
  const RecoveryTextEnd := "' for x hours, in that time please sign in and update your Account Password."

  /** Some row already holds this email or this username. */
  predicate Taken(users: Directory, email: string, username: string) {
    exists id :: id in users && (users[id].email == email || users[id].username == username)
  }

  /** `findOneOrFail({ email })`: the row with this email, if any. */
  function AccountWithEmail(users: Directory, email: string): (r: Option<string>)
    requires UniqueAccounts(users)
    ensures r.Some? ==> r.value in users && users[r.value].email == email
    ensures r.None? <==> forall id :: id in users ==> users[id].email != email
  {
    if exists id :: id in users && users[id].email == email then
      var id :| id in users && users[id].email == email; Some(id)
    else
      None
  }

  /** The entity as the repository hands it over: one property per column, `_id` included. */
  function EntityObject(id: string, u: User): Object {
    map["_id" := Str(id), "email" := Str(u.email), "username" := Str(u.username),
        "password" := Str(u.password), "full_name" := Str(u.fullName),
        "is_verified" := Bool(u.isVerified), "created_at" := Num(u.createdAt),
        "updated_at" := Num(u.updatedAt)]
  }

  /** The row `signUp` saves: the form's fields, not yet verified, stamped with the clock. */
  function NewAccount(dto: CreateAccountDto, now: int): (u: User)
    ensures !u.isVerified
    ensures u.email == dto.email && u.username == dto.username && u.fullName == dto.fullName
  {
    User(dto.email, dto.username, dto.password, dto.fullName, false, now, now)
  }

  /**
    The saved entity after `delete result._id`, `delete result.password` and
    `delete result.updated_at`: every other column, unchanged.
  */
  function SignUpView(id: string, u: User): (view: Object)
    ensures "_id" !in view && "password" !in view && "updated_at" !in view
    ensures view.Keys == {"email", "username", "full_name", "is_verified", "created_at"}
    ensures forall k :: k in view ==> view[k] == EntityObject(id, u)[k]
  {
    EntityObject(id, u) - {"_id", "password", "updated_at"}
  }

  /** `const { _id, password, ...serializedUser } = userEntity`: every column but `_id` and `password`. */
  function SignInView(id: string, u: User): (view: Object)
    ensures "_id" !in view && "password" !in view
    ensures view.Keys == {"email", "username", "full_name", "is_verified", "created_at", "updated_at"}
    ensures forall k :: k in view ==> view[k] == EntityObject(id, u)[k]
  {
    EntityObject(id, u) - {"_id", "password"}
  }

  /** The whole seconds of the clock, `Math.floor(Date.now() / 1000)`. */
  function Seconds(nowMs: int): (s: int)
    ensures 1000 * s <= nowMs < 1000 * s + 1000
  {
    nowMs / 1000
  }

  /** The claims of the verification token minted by `signUp` at clock `nowMs`. */
  function VerificationPayload(dto: CreateAccountDto, nowMs: int): (c: VerificationClaims)
    ensures c.id == dto.username && c.email == dto.email
    ensures 1000 * (c.exp - ValidityWindow) <= nowMs < 1000 * (c.exp - ValidityWindow) + 1000
  {
    VerificationClaims(dto.username, dto.email, Seconds(nowMs) + ValidityWindow)
  }

  /** `Math.round(exp - Date.now() / 1000)`: the nearest whole second, halves rounded up. */
  function RemainingSeconds(exp: int, nowMs: int): (r: int)
    ensures -500 < 1000 * r - (1000 * exp - nowMs) <= 500
  {
    (1000 * exp - nowMs + 500) / 1000
  }

  /**
    The checks `accountVerification` makes on the decoded token before it looks
    for an account: an `exp` at or before the current second is expired; a token
    that does not decode, or carries no email, is not valid. A token without
    `exp` is never expired (`undefined - n` is `NaN`, and `NaN <= 0` is false).
  */
  function CheckVerification(d: Option<Decoded>, nowMs: int): (r: Result<string, HttpError>)
    ensures r.Err? ==> r.error == NotFound(TokenExpired) || r.error == NotFound(TokenNotValid)
    ensures r.Err? && r.error == NotFound(TokenExpired) <==>
              d.Some? && d.value.exp.Some? && d.value.exp.value <= Seconds(nowMs)
    ensures r.Ok? ==> d.Some? && d.value.email == Some(r.value)
    ensures d.Some? && d.value.email.Some? && !(d.value.exp.Some? && d.value.exp.value <= Seconds(nowMs)) ==>
              r == Ok(d.value.email.value)
    ensures r == Err(NotFound(TokenNotValid)) <==>
              d.None? || (d.value.email.None? && !(d.value.exp.Some? && d.value.exp.value <= Seconds(nowMs)))
  {
    match d
    case None => Err(NotFound(TokenNotValid))
    case Some(t) =>
      if t.exp.Some? && t.exp.value - Seconds(nowMs) <= 0 then Err(NotFound(TokenExpired))
      else if t.email.None? then Err(NotFound(TokenNotValid))
      else Ok(t.email.value)
  }

  /**
    The rows `validateUser` accepts, AS WRITTEN: with an email, the rows with that
    email and digest; without one, every row with that digest, whatever its
    username.
  */
  function MatchingAsWritten(users: Directory, dto: LoginDto, digest: string): set<string> {
    if dto.email != "" then
      set id | id in users && users[id].email == dto.email && users[id].password == digest
    else
      set id | id in users && users[id].password == digest
  }

  /** The rows `validateUser` is meant to accept: the given email, or else the given username, with that digest. */
  function Matching(users: Directory, dto: LoginDto, digest: string): (ids: set<string>)
    ensures forall id :: id in ids ==> id in users && users[id].password == digest
    ensures dto.email != "" ==> forall id :: id in ids ==> users[id].email == dto.email
    ensures dto.email == "" ==> forall id :: id in ids ==> users[id].username == dto.username
    ensures ids <= MatchingAsWritten(users, dto, digest)
  {
    if dto.email != "" then
      set id | id in users && users[id].email == dto.email && users[id].password == digest
    else
      set id | id in users && users[id].username == dto.username && users[id].password == digest
  }

  /**
    The lookup as written lets a username sign in with someone else's password:
    with no email, the username is not consulted, so `bob` typing the password
    whose digest is `alice`'s is matched to `alice`'s row.
  */
  lemma HashOnlyLookupIgnoresUsername()
    ensures var users := map["a1" := User("alice@x.com", "alice", "d1", "Alice", true, 0, 0),
                             "b2" := User("bob@x.com", "bob", "d2", "Bob", true, 0, 0)];
            var dto := LoginDto("", "bob", "alice-password");
            && "a1" in MatchingAsWritten(users, dto, "d1")
            && users["a1"].username != dto.username
            && Matching(users, dto, "d1") == {}
  {
    var users := map["a1" := User("alice@x.com", "alice", "d1", "Alice", true, 0, 0),
                     "b2" := User("bob@x.com", "bob", "d2", "Bob", true, 0, 0)];
    var dto := LoginDto("", "bob", "alice-password");
    assert "a1" in users && users["a1"].password == "d1";
  }

  /**
    In general: with no email, the lookup as written accepts every row with the
    digest whatever its username, and one such row under another username makes
    the intended lookup strictly smaller.
  */
  lemma AsWrittenIgnoresUsername(users: Directory, dto: LoginDto, digest: string, id: string)
    ensures dto.email == "" && id in users && users[id].password == digest ==>
              id in MatchingAsWritten(users, dto, digest)
    ensures dto.email == "" && id in users && users[id].password == digest && users[id].username != dto.username ==>
              id !in Matching(users, dto, digest) && Matching(users, dto, digest) < MatchingAsWritten(users, dto, digest)
  {
  }

  /**
    A verification token minted by `signUp` is accepted by `accountVerification`
    for the rest of the 15 minutes, give or take the truncated second, and
    refused as expired from then on, provided the decoder reads back what the
    signer wrote.
  */
  lemma VerificationTokenLifetime(sign: VerificationClaims -> string, decode: string -> Option<Decoded>,
                                  dto: CreateAccountDto, minted: int, later: int)
    requires forall c :: decode(sign(c)) == Some(Decoded(Some(c.exp), Some(c.email)))
    ensures later - minted < 1000 * (ValidityWindow - 1) ==>
              CheckVerification(decode(sign(VerificationPayload(dto, minted))), later) == Ok(dto.email)
    ensures later - minted >= 1000 * ValidityWindow ==>
              CheckVerification(decode(sign(VerificationPayload(dto, minted))), later) == Err(NotFound(TokenExpired))
    ensures CheckVerification(decode(sign(VerificationPayload(dto, minted))), later) == Ok(dto.email) <==>
              later < 1000 * (Seconds(minted) + ValidityWindow)
    ensures CheckVerification(decode(sign(VerificationPayload(dto, minted))), later) == Err(NotFound(TokenExpired)) <==>
              later >= 1000 * (Seconds(minted) + ValidityWindow)
  {
    var c := VerificationPayload(dto, minted);
    assert decode(sign(c)) == Some(Decoded(Some(c.exp), Some(c.email)));
    var s, s' := Seconds(minted), Seconds(later);
    if later - minted < 1000 * (ValidityWindow - 1) {
      assert 1000 * s' <= later < minted + 1000 * (ValidityWindow - 1) < 1000 * (s + ValidityWindow);
      assert s' < s + ValidityWindow;
    }
    if later - minted >= 1000 * ValidityWindow {
      assert 1000 * s' + 1000 > later >= minted + 1000 * ValidityWindow >= 1000 * (s + ValidityWindow);
      assert s' >= s + ValidityWindow;
    }
    assert 1000 * s' <= later < 1000 * s' + 1000;
    assert s' < s + ValidityWindow <==> later < 1000 * (s + ValidityWindow);
  }

  class AuthService {
    /** `configService.get('APP_URL')`. */
    const appUrl: string
    /** `jwt.sign(payload, SECRET_KEY)`. */
    const signVerification: VerificationClaims -> string
    /** `jwtService.sign(payload)`. */
    const signSession: SessionClaims -> string
    /** `jwtService.decode(token)`; `None` is `null`. */
    const decode: string -> Option<Decoded>
    /** `crypto.createHmac('sha256', password).digest('hex')`. */
    const digest: string -> string

    var users: Directory
    /** The revocation store: token string to time-to-live in seconds. */
    var revoked: map<string, int>
    /** The mails handed to the mail service, oldest first. */
    var outbox: seq<Mail>

    ghost predicate Valid()
      reads this
    {
      UniqueAccounts(users)
    }

    constructor (appUrl: string, signVerification: VerificationClaims -> string, signSession: SessionClaims -> string,
                 decode: string -> Option<Decoded>, digest: string -> string, users: Directory)
      requires UniqueAccounts(users)
      ensures Valid()
      ensures this.appUrl == appUrl && this.signVerification == signVerification && this.signSession == signSession
      ensures this.decode == decode && this.digest == digest
      ensures this.users == users && revoked == map[] && outbox == []
    {
      this.appUrl := appUrl;
      this.signVerification := signVerification;
      this.signSession := signSession;
      this.decode := decode;
      this.digest := digest;
      this.users := users;
      revoked := map[];
      outbox := [];
    }

    /** The verification mail: to the new address, with a link carrying the token. */
    function VerificationMail(dto: CreateAccountDto, token: string): (m: Mail)
      ensures m.receiver == dto.email
    {
      Mail(dto.email, VerificationSubject + dto.username + "]",
           appUrl + VerificationLinkPath + token)
    }

    /** The recovery mail: to the requested address, carrying the new password. */
    function RecoveryMail(email: string, username: string, password: string): (m: Mail)
      ensures m.receiver == email
    {
      Mail(email, RecoverySubject + username + "]", RecoveryTextStart + password + RecoveryTextEnd)
    }

    /**
      `signUp`: saves the new row, then mints the verification token and mails
      it, then answers with the row minus `_id`, `password` and `updated_at`
      and the new id beside it. A rejected save (a duplicate email or username,
      or any other store error) raises `UnprocessableEntity` with the store's
      message before any token is minted or mail sent. A mail failure is not
      caught: the row stays saved and the request fails.
    */
    method SignUp(dto: CreateAccountDto, nowMs: int, newId: string, io: Faults) returns (r: Result<Reply, HttpError>)
      requires Valid()
      requires newId !in users  // the store assigns a fresh `_id`
      modifies this
      ensures Valid()
      ensures revoked == old(revoked)
      ensures io.storeDown || Taken(old(users), dto.email, dto.username) ==>
                r == Err(UnprocessableEntity(io.storeMessage)) && users == old(users) && outbox == old(outbox)
      ensures !io.storeDown && !Taken(old(users), dto.email, dto.username) ==>
                users == old(users)[newId := NewAccount(dto, nowMs)]
      ensures !io.storeDown && !Taken(old(users), dto.email, dto.username) && io.mailDown ==>
                r == Err(InternalError) && outbox == old(outbox)
      ensures !io.storeDown && !Taken(old(users), dto.email, dto.username) && !io.mailDown ==>
                && outbox == old(outbox) + [VerificationMail(dto, signVerification(VerificationPayload(dto, nowMs)))]
                && r == Ok(Serialized("account_informations", SignUpView(newId, NewAccount(dto, nowMs)),
                                      SignedUp, Some(newId)))
    {
      var newUser := NewAccount(dto, nowMs);
      if io.storeDown || Taken(users, dto.email, dto.username) {
        return Err(UnprocessableEntity(io.storeMessage));
      }
      FreshAccountKeepsUnique(users, newId, newUser);
      users := users[newId := newUser];
      var verifyToken := signVerification(VerificationPayload(dto, nowMs));
      var mailBody := VerificationMail(dto, verifyToken);
      if io.mailDown {
        return Err(InternalError);
      }
      outbox := outbox + [mailBody];
      var result := EntityObject(newId, newUser);
      var id := newId;
      result := result - {"_id"};
      result := result - {"password"};
      result := result - {"updated_at"};
      assert result == SignUpView(newId, newUser);
      r := Ok(Serialized("account_informations", result,
                         SignedUp, Some(id)));
    }

    /**
      `signIn`: the access token carries exactly `_id`, `username`, `email` and
      `created_at`; the user view is the entity minus `_id` and `password`; the
      id is returned beside it. Nothing is stored.
    */
    function SignIn(id: string, u: User): (r: Reply)
      ensures r.Serialized? && r.key == "user_information" && r.id == Some(id)
      ensures r.data.Keys == {"access_token", "user"}
      ensures r.data["access_token"] == Str(signSession(SessionClaims(id, u.username, u.email, u.createdAt)))
      ensures r.data["user"].Obj? && "password" !in r.data["user"].fields && "_id" !in r.data["user"].fields
      ensures r.data["user"] == Obj(SignInView(id, u))
    {
      var token := signSession(SessionClaims(id, u.username, u.email, u.createdAt));
      Serialized("user_information", map["access_token" := Str(token), "user" := Obj(SignInView(id, u))],
                 SignedIn, Some(id))
    }

    /**
      `signOut`: writes one revocation entry, keyed by the token string, whose
      TTL is the token's remaining lifetime rounded to the second. The TTL is
      not checked: an expired token gets a non-positive one. A token that does
      not decode, or has no `exp`, makes the handler fail before anything is
      written.
    */
    method SignOut(token: string, nowMs: int) returns (r: Result<Reply, HttpError>)
      modifies this`revoked
      ensures decode(token).Some? && decode(token).value.exp.Some? ==>
                && revoked == old(revoked)[token := RemainingSeconds(decode(token).value.exp.value, nowMs)]
                && r == Ok(Serialized("dead_token", map["token" := Str(token)], "Token has been killed.", None))
      ensures decode(token).None? || decode(token).value.exp.None? ==>
                revoked == old(revoked) && r == Err(InternalError)
    {
      var decodedToken := decode(token);
      if decodedToken.None? || decodedToken.value.exp.None? {
        return Err(InternalError);
      }
      var expireDate := decodedToken.value.exp.value;
      var remainingSeconds := RemainingSeconds(expireDate, nowMs);
      revoked := revoked[token := remainingSeconds];
      r := Ok(Serialized("dead_token", map["token" := Str(token)], "Token has been killed.", None));
    }

    /**
      `validateUser`, with the lookup by username the code evidently intends
      (see `MatchingAsWritten` for the code as written): with an email, a row
      with that email and the password's digest; otherwise a row with that
      username and digest. When there is none, both branches raise the same
      `NotFound`. Nothing is changed.
    */
    method ValidateUser(dto: LoginDto) returns (r: Result<string, HttpError>)
      ensures r.Ok? ==> r.value in users && users[r.value].password == digest(dto.password)
      ensures r.Ok? && dto.email != "" ==> users[r.value].email == dto.email
      ensures r.Ok? && dto.email == "" ==> users[r.value].username == dto.username
      ensures r.Err? <==> Matching(users, dto, digest(dto.password)) == {}
      ensures r.Err? ==> r.error == NotFound(NoMatchingAccount)
    {
      var passwordHash := digest(dto.password);
      var found := Matching(users, dto, passwordHash);
      if found == {} {
        return Err(NotFound(NoMatchingAccount));
      }
      var id :| id in found;
      r := Ok(id);
    }

    /**
      `accountRecovery`: sets the account's password to the generated one and
      saves it, then mails it to the address. A missing account, a failed save
      or a failed mail all raise the one `NotFound`; a save that went through
      before the mail failed stays. Otherwise it answers `OK`.
    */
    method AccountRecovery(dto: AccountRecoveryDto, generated: string, io: Faults) returns (r: Result<Reply, HttpError>)
      requires Valid()
      modifies this
      ensures Valid()
      ensures revoked == old(revoked)
      ensures r.Err? ==> r.error == NotFound(NoSuchEmail)
      ensures AccountWithEmail(old(users), dto.email).None? || io.storeDown ==>
                r.Err? && users == old(users) && outbox == old(outbox)
      ensures AccountWithEmail(old(users), dto.email).Some? && !io.storeDown ==>
                var id := AccountWithEmail(old(users), dto.email).value;
                && users == old(users)[id := old(users)[id].(password := generated)]
                && (io.mailDown ==> r.Err? && outbox == old(outbox))
                && (!io.mailDown ==>
                      r == Ok(Status("OK", 200))
                      && outbox == old(outbox) + [RecoveryMail(dto.email, old(users)[id].username, generated)])
    {
      var found := AccountWithEmail(users, dto.email);
      if found.None? {
        return Err(NotFound(NoSuchEmail));
      }
      var id := found.value;
      var account := users[id];
      account := account.(password := generated);
      SameKeysKeepUnique(users, id, account);
      if io.storeDown {
        return Err(NotFound(NoSuchEmail));
      }
      users := users[id := account];
      var mailBody := RecoveryMail(dto.email, account.username, generated);
      if io.mailDown {
        return Err(NotFound(NoSuchEmail));
      }
      outbox := outbox + [mailBody];
      r := Ok(Status("OK", 200));
    }

    /**
      `accountVerification`: a decoded token whose `exp` is not after the
      current second is expired and changes nothing; otherwise the account with
      the token's email is marked verified and saved. A token that does not
      decode, an unknown email or a failed save is "not valid".
    */
    method AccountVerification(incToken: string, nowMs: int, io: Faults) returns (r: Result<Reply, HttpError>)
      requires Valid()
      modifies this`users
      ensures Valid()
      ensures var check := CheckVerification(decode(incToken), nowMs);
              && (check.Err? ==> r == Err(check.error) && users == old(users))
              && (check.Ok? && (AccountWithEmail(old(users), check.value).None? || io.storeDown) ==>
                    r == Err(NotFound(TokenNotValid)) && users == old(users))
              && (check.Ok? && AccountWithEmail(old(users), check.value).Some? && !io.storeDown ==>
                    var id := AccountWithEmail(old(users), check.value).value;
                    r == Ok(Status(Verified, 200))
                    && users == old(users)[id := old(users)[id].(isVerified := true)])
    {
      var check := CheckVerification(decode(incToken), nowMs);
      if check.Err? {
        return Err(check.error);
      }
      var found := AccountWithEmail(users, check.value);
      if found.None? || io.storeDown {
        return Err(NotFound(TokenNotValid));
      }
      var id := found.value;
      var account := users[id];
      account := account.(isVerified := true);
      SameKeysKeepUnique(users, id, account);
      users := users[id := account];
      r := Ok(Status(Verified, 200));
    }
  }
}
