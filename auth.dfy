/** The account procedures `signin`, `signup`, `verifyEmail` and `forgotPassword`, as
    transitions of the user table: an account is created unverified with a verification
    token, becomes verified when the token is presented in time, and may be issued a
    password-reset token. Password hashing and comparison, the e-mail format check, token
    generation, the clock and mail delivery are parameters. */
module Auth {
  import opened Outcomes
  import opened Entities
  import opened Tables
  import opened Store

  /** How long a verification token stays valid: 24 hours, in milliseconds. */
  const VerificationLifetime: int := 24 * 60 * 60 * 1000

  /** How long a password-reset token stays valid: one hour, in milliseconds. */
  const ResetLifetime: int := 60 * 60 * 1000

  // ----- signin -----

  /** What a successful `signin` returns. */
  datatype Account = Account(id: Id, email: string, name: string)

  /** Some user with this e-mail has a stored password that is not empty (`!user.password`
      treats "" like a missing one). */
  predicate HasPassword(users: seq<User>, email: string) {
    exists i :: 0 <= i < |users| && users[i].email == email && Truthy(users[i].password)
  }

  /** The user with this e-mail may sign in with this password. */
  predicate Admitted(users: seq<User>, email: string, password: string, matches: (string, string) -> bool) {
    exists i :: 0 <= i < |users| && users[i].email == email && Truthy(users[i].password) &&
      users[i].emailVerified && matches(password, users[i].password.value)
  }

  /** `signin`: a malformed e-mail is BAD_REQUEST; a missing user or one without a password
      is NOT_FOUND; an unverified user is UNAUTHORIZED before the password is looked at;
      a password that does not match the stored hash is UNAUTHORIZED. `matches` stands for
      the hash comparison. */
  function Signin(users: seq<User>, email: string, password: string, isEmail: string -> bool,
                  matches: (string, string) -> bool): (r: Result<Account>)
    requires KeysUnique(users, UserEmail)
    ensures r.Ok? <==> isEmail(email) && Admitted(users, email, password, matches)
    ensures r.Err? ==> r.code == if !isEmail(email) then BadRequest else if !HasPassword(users, email) then NotFound else Unauthorized
    ensures r.Ok? ==> exists i :: 0 <= i < |users| && users[i].email == email && r.value == Account(users[i].id, email, users[i].name)
  {
    if !isEmail(email) then Err(BadRequest)
    else match FindFirst(users, UserEmail, email)
      case None => Err(NotFound)
      case Some(i) =>
        KeyLocates(users, UserEmail, i);
        var u := users[i];
        if !Truthy(u.password) then Err(NotFound)
        else if !u.emailVerified then Err(Unauthorized)
        else if !matches(password, u.password.value) then Err(Unauthorized)
        else Ok(Account(u.id, u.email, u.name))
  }

  /** An unverified account is turned away whatever password is offered: the verification
      check comes before the comparison. */
  lemma UnverifiedRefusedBeforeCompare(users: seq<User>, i: nat, password: string, isEmail: string -> bool,
                                       matches: (string, string) -> bool)
    requires KeysUnique(users, UserEmail) && i < |users|
    requires Truthy(users[i].password) && !users[i].emailVerified && isEmail(users[i].email)
    ensures Signin(users, users[i].email, password, isEmail, matches) == Err(Unauthorized)
  {
    KeyLocates(users, UserEmail, i);
  }

  /** A stored password that is the empty string counts as no password: NOT_FOUND, whatever
      the verification state and whatever the comparison would say. */
  lemma EmptyPasswordNotFound(users: seq<User>, i: nat, password: string, isEmail: string -> bool,
                              matches: (string, string) -> bool)
    requires KeysUnique(users, UserEmail) && i < |users|
    requires users[i].password == Some("") && isEmail(users[i].email)
    ensures Signin(users, users[i].email, password, isEmail, matches) == Err(NotFound)
  {
    KeyLocates(users, UserEmail, i);
  }

  // ----- signup -----

  datatype SignupInput = SignupInput(email: string, password: string, name: string)

  /** The input schema of `signup`: an e-mail, a password of six or more characters and a
      name of two or more. */
  predicate ValidSignup(input: SignupInput, isEmail: string -> bool) {
    isEmail(input.email) && |input.password| >= 6 && |input.name| >= 2
  }

  /** The account `signup` creates: unverified, with the password hash, a fresh
      verification token that expires 24 hours after `now`, and the default role. */
  function NewUser(id: Id, input: SignupInput, hashed: string, token: string, now: int): User {
    User(id, input.email, input.name, Some(hashed), false, Customer, Some(token), Some(now + VerificationLifetime), None, None)
  }

  /** The checks of `signup` in the order they run. */
  ghost function SignupRejection(users: seq<User>, input: SignupInput, isEmail: string -> bool): Option<ErrorCode> {
    if !ValidSignup(input, isEmail) then Some(BadRequest)
    else if HasKey(users, UserEmail, input.email) then Some(Conflict)
    else None
  }

  /** Appending a user with a fresh id and a free e-mail keeps the user table valid. */
  lemma AppendUserKeepsValid(users: seq<User>, nextId: Id, u: User)
    requires UsersValid(users, nextId) && u.id == nextId && !HasKey(users, UserEmail, u.email)
    ensures UsersValid(users + [u], nextId + 1)
  {
    assert !HasKey(users, UserId, u.id);
    KeysAppend(users, UserId, u);
    KeysAppend(users, UserEmail, u);
  }

  /** `signup`: BAD_REQUEST for a malformed input and CONFLICT for an e-mail already
      registered, with nothing written; otherwise the unverified account is created and the
      verification mail is sent. `hashed` and `token` stand for the password hash and the
      random token; when the mail cannot be sent the account stays created and the call
      fails. */
  method Signup(db: Database, input: SignupInput, isEmail: string -> bool, hashed: string, token: string,
                now: int, mailSent: bool) returns (r: Result<()>)
    requires db.Valid()
    modifies db
    ensures db.Valid()
    ensures SignupRejection(old(db.users), input, isEmail).Some? ==>
      r.Err? && Some(r.code) == SignupRejection(old(db.users), input, isEmail) && unchanged(db)
    ensures SignupRejection(old(db.users), input, isEmail).None? ==>
      db.users == old(db.users) + [NewUser(old(db.nextId), input, hashed, token, now)] && db.nextId == old(db.nextId) + 1
    ensures SignupRejection(old(db.users), input, isEmail).None? ==> (r.Ok? <==> mailSent) && (r.Err? ==> r.code == InternalError)
    ensures db.categories == old(db.categories) && db.products == old(db.products) && db.promotions == old(db.promotions) && db.links == old(db.links)
  {
    if !ValidSignup(input, isEmail) {
      return Err(BadRequest);
    }
    if FindFirst(db.users, UserEmail, input.email).Some? {
      return Err(Conflict);
    }
    var u := NewUser(db.nextId, input, hashed, token, now);
    AppendUserKeepsValid(db.users, db.nextId, u);
    CatalogIdBumpKeepsValid(db.categories, db.products, db.nextId);
    IdBumpKeepsValid(db.promotions, db.users, db.nextId);
    db.users := db.users + [u];
    db.nextId := db.nextId + 1;
    if !mailSent {
      return Err(InternalError);
    }
    r := Ok(());
  }

  // ----- verifyEmail -----

  /** The user holds `token` as a verification token that has not expired at `now`. */
  predicate HoldsLiveToken(u: User, token: string, now: int) {
    u.verificationToken == Some(token) && u.verificationTokenExpires.Some? && u.verificationTokenExpires.value > now
  }

  function HoldsLiveTokenKey(token: string, now: int): User -> bool {
    (u: User) => HoldsLiveToken(u, token, now)
  }

  /** The first user holding a live `token` (the `findFirst` of `verifyEmail`). */
  function TokenHolder(users: seq<User>, token: string, now: int): (r: Option<nat>)
    ensures r.None? <==> forall j :: 0 <= j < |users| ==> !HoldsLiveToken(users[j], token, now)
    ensures r.Some? ==> r.value < |users| && HoldsLiveToken(users[r.value], token, now)
  {
    var k := FindFirst(users, HoldsLiveTokenKey(token, now), true);
    assert forall j :: 0 <= j < |users| ==> HoldsLiveTokenKey(token, now)(users[j]) == HoldsLiveToken(users[j], token, now);
    k
  }

  /** A verified account: the flag set, the token and its expiry cleared. */
  function Verified(u: User): User {
    u.(emailVerified := true, verificationToken := None, verificationTokenExpires := None)
  }

  /** `verifyEmail`: when some user holds the token and it has not expired, that user
      becomes verified; every failure, including an unknown or expired token, is reported
      as BAD_REQUEST. */
  method VerifyEmail(db: Database, token: string, now: int) returns (r: Result<()>)
    requires db.Valid()
    modifies db
    ensures db.Valid()
    ensures r.Err? <==> forall j :: 0 <= j < |old(db.users)| ==> !HoldsLiveToken(old(db.users)[j], token, now)
    ensures r.Err? ==> r.code == BadRequest && unchanged(db)
    ensures r.Ok? ==> var k := TokenHolder(old(db.users), token, now).value;
      db.users == old(db.users)[k := Verified(old(db.users)[k])]
    ensures |db.users| == |old(db.users)|
    ensures forall j :: 0 <= j < |db.users| && old(db.users)[j].emailVerified ==> db.users[j].emailVerified
    ensures db.nextId == old(db.nextId)
    ensures db.categories == old(db.categories) && db.products == old(db.products) && db.promotions == old(db.promotions) && db.links == old(db.links)
  {
    var holder := TokenHolder(db.users, token, now);
    if holder.None? {
      return Err(BadRequest);
    }
    var k := holder.value;
    var u := Verified(db.users[k]);
    KeysReplace(db.users, UserId, k, u);
    KeysReplace(db.users, UserEmail, k, u);
    db.users := db.users[k := u];
    r := Ok(());
  }

  /** A token opens an account once: when only one user holds it, presenting it again after
      a successful verification fails. */
  lemma VerificationSingleUse(users: seq<User>, token: string, now: int, later: int)
    requires TokenHolder(users, token, now).Some?
    requires forall j :: 0 <= j < |users| && users[j].verificationToken == Some(token) ==> j == TokenHolder(users, token, now).value
    ensures var k := TokenHolder(users, token, now).value;
      TokenHolder(users[k := Verified(users[k])], token, later).None?
  {
  }

  // ----- forgotPassword -----

  /** A user issued a reset token that expires one hour after `now`. */
  function WithResetToken(u: User, token: string, now: int): User {
    u.(resetPasswordToken := Some(token), resetPasswordExpires := Some(now + ResetLifetime))
  }

  /** `forgotPassword`: a malformed e-mail is BAD_REQUEST. An unknown e-mail is answered
      with the same success as a known one, so the answer does not reveal which addresses
      are registered. A known e-mail's user receives a reset token and the reset mail; when
      that mail cannot be sent the call fails after the token is stored. */
  method ForgotPassword(db: Database, email: string, isEmail: string -> bool, token: string, now: int, mailSent: bool)
    returns (r: Result<()>)
    requires db.Valid()
    modifies db
    ensures db.Valid()
    ensures !isEmail(email) ==> r == Err(BadRequest) && unchanged(db)
    ensures isEmail(email) && !HasKey(old(db.users), UserEmail, email) ==> r == Ok(()) && unchanged(db)
    ensures isEmail(email) && HasKey(old(db.users), UserEmail, email) ==>
      var k := FindFirst(old(db.users), UserEmail, email).value;
      db.users == old(db.users)[k := WithResetToken(old(db.users)[k], token, now)] && (r.Ok? <==> mailSent) && (r.Err? ==> r.code == InternalError)
    ensures isEmail(email) && mailSent ==> r == Ok(())
    ensures db.nextId == old(db.nextId)
    ensures db.categories == old(db.categories) && db.products == old(db.products) && db.promotions == old(db.promotions) && db.links == old(db.links)
  {
    if !isEmail(email) {
      return Err(BadRequest);
    }
    var found := FindFirst(db.users, UserEmail, email);
    if found.Some? {
      var k := found.value;
      var u := WithResetToken(db.users[k], token, now);
      KeysReplace(db.users, UserId, k, u);
      KeysReplace(db.users, UserEmail, k, u);
      db.users := db.users[k := u];
      if !mailSent {
        return Err(InternalError);
      }
    }
    r := Ok(());
  }

  // ----- the account lifecycle -----

  /** Signing up, then presenting the verification token before it expires, lets the new
      account sign in with its password; before verification the same sign-in is refused.
      `matches(input.password, hashed)` says the comparison recognises the stored hash,
      which, like any hash, is not empty. */
  lemma SignupVerifySignin(users: seq<User>, nextId: Id, input: SignupInput, hashed: string, token: string,
                           now: int, later: int, isEmail: string -> bool, matches: (string, string) -> bool)
    requires UsersValid(users, nextId) && SignupRejection(users, input, isEmail) == None
    requires forall j :: 0 <= j < |users| ==> !HoldsLiveToken(users[j], token, later)
    requires later < now + VerificationLifetime
    requires matches(input.password, hashed) && hashed != ""
    ensures var registered := users + [NewUser(nextId, input, hashed, token, now)];
      KeysUnique(registered, UserEmail) &&
      TokenHolder(registered, token, later) == Some(|users|) &&
      Signin(registered, input.email, input.password, isEmail, matches) == Err(Unauthorized) &&
      KeysUnique(registered[|users| := Verified(registered[|users|])], UserEmail) &&
      Signin(registered[|users| := Verified(registered[|users|])], input.email, input.password, isEmail, matches)
        == Ok(Account(nextId, input.email, input.name))
  {
    var u := NewUser(nextId, input, hashed, token, now);
    var registered := users + [u];
    var verified := registered[|users| := Verified(u)];
    KeysAppend(users, UserEmail, u);
    assert registered[|users|] == u;
    UnverifiedRefusedBeforeCompare(registered, |users|, input.password, isEmail, matches);
    KeysReplace(registered, UserEmail, |users|, Verified(u));
    assert verified[|users|] == Verified(u);
    KeyLocates(verified, UserEmail, |users|);
    FindAppended(users, HoldsLiveTokenKey(token, later), u);
  }
}
