/** Sign-up and log-in (app/service/auth_service.go and its twin
    internal/service/auth_service.go, which differ only in the package the
    token helper comes from). bcrypt and the JWT signer are library calls
    whose internals are not modelled: the service is given them as the
    three functions of a Crypto value. */
module AuthService {
  import opened Entities
  import opened Errors
  import opened Store

  /** `bcrypt.GenerateFromPassword`: a digest, or the library's error. */
  datatype Digest = Hashed(digest: string) | HashError(reason: string)

  /** `bcrypt.CompareHashAndPassword`: nil, ErrMismatchedHashAndPassword,
      or any other error (a malformed digest, say). */
  datatype Comparison = Match | Mismatch | CompareError(reason: string)

  /** `GenerateToken(JwtResponse{Id, Username})`: a signed token or the
      signer's error. */
  datatype Token = Issued(token: string) | TokenError(reason: string)

  datatype Crypto = Crypto(
    hash: string -> Digest,
    compare: (string, string) -> Comparison,
    issueToken: (nat, string) -> Token)

  /** The one property of bcrypt the services rely on: a password matches
      the digest made from it. */
  ghost predicate Sound(c: Crypto) {
    forall p {:trigger c.hash(p)} :: c.hash(p).Hashed? ==> c.compare(c.hash(p).digest, p) == Match
  }

  /** Signup: refuse when any account has the email or the username;
      otherwise hash the password and insert the account with the next id
      and empty bio, gender and avatar. */
  function SignupStep(t: Tables, c: Crypto, username: string, fullName: string, email: string, password: string): Transition {
    if FindUserByEmailOrUsername(t.users, email, username).Some? then
      Transition(Fail(ServiceError(ValueExist, Text("email or username already exist"))), t)
    else
      match c.hash(password)
      case HashError(reason) =>
        Transition(Fail(ServiceError(EncryptedPasswordError, Text(reason))), t)
      case Hashed(digest) =>
        Transition(Ok, t.(users := t.users + [User(t.nextUserId, username, fullName, email, digest, "", "", "")],
                          nextUserId := t.nextUserId + 1))
  }

  /** Login: the first account matching the email or the username, the
      password compared with its digest, then a token for its id and
      username. */
  function LoginResult(t: Tables, c: Crypto, email: string, username: string, password: string): Result<string> {
    match FindUserByEmailOrUsername(t.users, email, username)
    case None =>
      Failure(ServiceError(ValueDoesntExist, Text("account could not be found with this email")))
    case Some(i) =>
      var user := t.users[i];
      match c.compare(user.password, password)
      case Mismatch => Failure(ServiceError(AuthenticationError, Text("password don't match")))
      case CompareError(reason) => Failure(ServiceError(BcryptError, Text(reason)))
      case Match =>
        match c.issueToken(user.id, user.username)
        case TokenError(reason) => Failure(ServiceError(JsonWebTokenError, Text(reason)))
        case Issued(token) => Success(token)
  }

  /** Signup fails with `value_exist` exactly when some account already has
      the email or the username, and then writes nothing. */
  lemma SignupRejectsTaken(t: Tables, c: Crypto, username: string, fullName: string, email: string, password: string)
    ensures var r := SignupStep(t, c, username, fullName, email, password);
      && (r.outcome == Fail(ServiceError(ValueExist, Text("email or username already exist")))
          <==> exists j :: 0 <= j < |t.users| && (t.users[j].email == email || t.users[j].username == username))
      && (r.outcome.Fail? ==> r.after == t)
  {
    var r := SignupStep(t, c, username, fullName, email, password);
    match FindUserByEmailOrUsername(t.users, email, username)
    case Some(j) =>
      assert t.users[j].email == email || t.users[j].username == username;
    case None =>
  }

  /** A Signup with a free email and username and a successful hash adds
      exactly one account, holding the digest rather than the password,
      and changes no other table. */
  lemma SignupAddsOne(t: Tables, c: Crypto, username: string, fullName: string, email: string, password: string)
    requires forall j :: 0 <= j < |t.users| ==> t.users[j].email != email && t.users[j].username != username
    requires c.hash(password).Hashed?
    ensures var r := SignupStep(t, c, username, fullName, email, password);
      && r.outcome == Ok
      && |r.after.users| == |t.users| + 1
      && r.after.users[..|t.users|] == t.users
      && r.after == t.(users := r.after.users, nextUserId := t.nextUserId + 1)
    ensures var u := SignupStep(t, c, username, fullName, email, password).after.users[|t.users|];
      && u.id == t.nextUserId && u.username == username && u.fullName == fullName
      && u.email == email && u.password == c.hash(password).digest
      && u.bio == "" && u.gender == "" && u.profilePicture == ""
  {
    var r := SignupStep(t, c, username, fullName, email, password);
    assert r.after.users[..|t.users|] == t.users;
  }

  /** Signup keeps every account's email and username unique, and the rest
      of the invariant. */
  lemma SignupPreservesInvariant(t: Tables, c: Crypto, username: string, fullName: string, email: string, password: string)
    requires Invariant(t)
    ensures Invariant(SignupStep(t, c, username, fullName, email, password).after)
  {
    var r := SignupStep(t, c, username, fullName, email, password);
    if r.outcome == Ok {
      var u := User(t.nextUserId, username, fullName, email, c.hash(password).digest, "", "", "");
      UserIdsAppend(t.users, t.nextUserId, u);
      var users' := t.users + [u];
      forall i, j | 0 <= i < j < |users'|
        ensures users'[i].email != users'[j].email && users'[i].username != users'[j].username
      {
        if j == |t.users| {
          assert users'[i] == t.users[i];
        } else {
          assert users'[i] == t.users[i] && users'[j] == t.users[j];
        }
      }
    }
  }

  /** Login on an email and username no account has fails with
      `value_doesnt_exist`. */
  lemma LoginRejectsUnknown(t: Tables, c: Crypto, email: string, username: string, password: string)
    ensures var r := LoginResult(t, c, email, username, password);
      r == Failure(ServiceError(ValueDoesntExist, Text("account could not be found with this email")))
      <==> forall j :: 0 <= j < |t.users| ==> t.users[j].email != email && t.users[j].username != username
  {
  }

  /** Login whose password does not match the found account's digest fails
      with `authentication_error`; a Login that succeeds returns the token
      issued for the found account's id and username. */
  lemma LoginChecksPassword(t: Tables, c: Crypto, email: string, username: string, password: string)
    requires FindUserByEmailOrUsername(t.users, email, username).Some?
    ensures var u := t.users[FindUserByEmailOrUsername(t.users, email, username).value];
      var r := LoginResult(t, c, email, username, password);
      && (c.compare(u.password, password) == Mismatch ==>
            r == Failure(ServiceError(AuthenticationError, Text("password don't match"))))
      && (r.Success? ==>
            && c.compare(u.password, password) == Match
            && c.issueToken(u.id, u.username) == Issued(r.value))
  {
  }

  /** After a successful Signup, logging in with the same email and
      username and the same password returns the token for the new account's
      id and username, provided the token is issued. */
  lemma {:induction false} SignupThenLogin(t: Tables, c: Crypto, username: string, fullName: string, email: string, password: string)
    requires Sound(c)
    requires SignupStep(t, c, username, fullName, email, password).outcome == Ok
    requires c.issueToken(t.nextUserId, username).Issued?
    ensures LoginResult(SignupStep(t, c, username, fullName, email, password).after, c, email, username, password)
         == Success(c.issueToken(t.nextUserId, username).token)
  {
    var after := SignupStep(t, c, username, fullName, email, password).after;
    assert FindUserByEmailOrUsername(t.users, email, username).None?;
    assert c.hash(password).Hashed?;
    var n := |t.users|;
    assert after.users[n].email == email;
    assert forall j :: 0 <= j < n ==> after.users[j] == t.users[j];
    assert FindUserByEmailOrUsername(after.users, email, username) == Some(n);
  }

  /** The same by email alone (the username left empty), when no account
      has an empty username. */
  lemma {:induction false} SignupThenLoginByEmail(t: Tables, c: Crypto, username: string, fullName: string, email: string, password: string)
    requires Sound(c)
    requires forall j :: 0 <= j < |t.users| ==> t.users[j].username != ""
    requires SignupStep(t, c, username, fullName, email, password).outcome == Ok
    requires c.issueToken(t.nextUserId, username).Issued?
    ensures LoginResult(SignupStep(t, c, username, fullName, email, password).after, c, email, "", password)
         == Success(c.issueToken(t.nextUserId, username).token)
  {
    var after := SignupStep(t, c, username, fullName, email, password).after;
    assert FindUserByEmailOrUsername(t.users, email, username).None?;
    assert c.hash(password).Hashed?;
    var n := |t.users|;
    assert after.users[n].email == email;
    assert forall j :: 0 <= j < n ==> after.users[j] == t.users[j];
    assert FindUserByEmailOrUsername(after.users, email, "") == Some(n);
  }

  /** AuthServiceStruct: the database and the crypto library it calls. */
  class AuthService {
    const db: Database
    const crypto: Crypto

    constructor (db: Database, crypto: Crypto)
      ensures this.db == db && this.crypto == crypto
    {
      this.db := db;
      this.crypto := crypto;
    }

    method Signup(username: string, fullName: string, email: string, password: string) returns (r: Outcome)
      requires db.Valid()
      modifies db
      ensures db.Valid()
      ensures Transition(r, db.Snapshot()) == SignupStep(old(db.Snapshot()), crypto, username, fullName, email, password)
    {
      SignupPreservesInvariant(db.Snapshot(), crypto, username, fullName, email, password);
      if FindUserByEmailOrUsername(db.users, email, username).Some? {
        return Fail(ServiceError(ValueExist, Text("email or username already exist")));
      }
      var hashedPassword := crypto.hash(password);
      if hashedPassword.HashError? {
        return Fail(ServiceError(EncryptedPasswordError, Text(hashedPassword.reason)));
      }
      db.CreateUser(User(0, username, fullName, email, hashedPassword.digest, "", "", ""));
      return Ok;
    }

    /** Login reads the database and changes nothing. */
    method Login(email: string, username: string, password: string) returns (r: Result<string>)
      ensures r == LoginResult(db.Snapshot(), crypto, email, username, password)
    {
      var found := FindUserByEmailOrUsername(db.users, email, username);
      if found.None? {
        return Failure(ServiceError(ValueDoesntExist, Text("account could not be found with this email")));
      }
      var user := db.users[found.value];
      var compared := crypto.compare(user.password, password);
      match compared {
        case Mismatch =>
          return Failure(ServiceError(AuthenticationError, Text("password don't match")));
        case CompareError(reason) =>
          return Failure(ServiceError(BcryptError, Text(reason)));
        case Match =>
      }
      var token := crypto.issueToken(user.id, user.username);
      if token.TokenError? {
        return Failure(ServiceError(JsonWebTokenError, Text(token.reason)));
      }
      return Success(token.token);
    }
  }
}
