/** Registration and login over the users table. Password hashing, hash
    comparison and token signing and verification are parameters: the model
    says what is hashed, compared and signed, not how. */
module Auth {
  import opened Wrappers
  import opened Store

  const EmailTaken := "Email already registered"
  const BadCredentials := "Invalid credentials"

  /** The bcrypt cost factor passed with every hash. */
  const HashRounds := 10

  datatype RegisterResult = RegisterResult(id: Id, email: string, name: Option<string>)

  datatype TokenPayload = TokenPayload(sub: Id, email: string)

  datatype LoginResult = LoginResult(accessToken: string)

  /** `bcrypt.hash(password, rounds)`. */
  type Hasher = (string, nat) -> string
  /** `bcrypt.compare(password, hash)`. */
  type Comparer = (string, string) -> bool
  /** `jwt.signAsync(payload)`. */
  type Signer = TokenPayload -> string
  /** Token verification: the payload of a token that checks out. */
  type Verifier = string -> Option<TokenPayload>

  /** `register`: a taken email is refused with 409 and nothing is stored;
      otherwise one user is stored with the hash of the password (never the
      password itself) and the answer carries only id, email and name. */
  function Register(db: Db, name: Option<string>, email: string, password: string, hash: Hasher)
    : (r: Result<(Db, RegisterResult)>)
    requires Valid(db)
    ensures r.Ok? <==> FindUserByEmail(db, email).None?
    ensures r.Err? ==> r == Err(Conflict(EmailTaken))
    ensures r.Ok? ==> (
      var (after, res) := r.value;
      var u := User(res.id, email, name, hash(password, HashRounds));
      && res.email == email && res.name == name
      && (forall v :: v in db.users ==> v.id != res.id)
      && after.users == db.users + [u]
      && after.products == db.products && after.generations == db.generations
      && Valid(after)
      && FindUserByEmail(after, email) == Some(u))
  {
    if FindUserByEmail(db, email).Some? then Err(Conflict(EmailTaken))
    else
      var u := User(db.nextId, email, name, hash(password, HashRounds));
      AppendUserKeepsValid(db, u);
      Ok((db.(users := db.users + [u], nextId := db.nextId + 1), RegisterResult(u.id, u.email, u.name)))
  }

  lemma AppendUserKeepsValid(db: Db, u: User)
    requires Valid(db) && u.id == db.nextId && FindUserByEmail(db, u.email).None?
    ensures var after := db.(users := db.users + [u], nextId := db.nextId + 1);
      Valid(after) && FindUserByEmail(after, u.email) == Some(u)
  {
    var after := db.(users := db.users + [u], nextId := db.nextId + 1);
    assert forall i :: 0 <= i < |db.users| ==> db.users[i] in db.users;
    assert forall v :: v in after.users ==> v in db.users || v == u;
    assert after.users[|db.users|] == u;
  }

  /** `login`: the one failure answer covers an unknown email and a wrong
      password alike; on success the token is signed over the user's id
      and email. Login reads the store and returns no new one. */
  function Login(db: Db, email: string, password: string, compare: Comparer, sign: Signer)
    : (r: Result<LoginResult>)
    ensures FindUserByEmail(db, email).None? ==> r == Err(Unauthorized(BadCredentials))
    ensures r.Ok? <==> FindUserByEmail(db, email).Some? && compare(password, FindUserByEmail(db, email).value.passwordHash)
    ensures r.Err? ==> r == Err(Unauthorized(BadCredentials))
    ensures r.Ok? ==> (
      var u := FindUserByEmail(db, email).value;
      r.value.accessToken == sign(TokenPayload(u.id, u.email)))
  {
    match FindUserByEmail(db, email)
    case None => Err(Unauthorized(BadCredentials))
    case Some(u) =>
      if !compare(password, u.passwordHash) then Err(Unauthorized(BadCredentials))
      else Ok(LoginResult(sign(TokenPayload(u.id, u.email))))
  }

  /** The JWT strategy's `validate`: the request's user from a verified
      token's payload; no token, or one that does not verify, is no user. */
  function Authenticate(token: Option<string>, verify: Verifier): (r: Option<AuthUser>)
    ensures r.Some? <==> token.Some? && verify(token.value).Some?
    ensures r.Some? ==> r.value.id == verify(token.value).value.sub && r.value.email == verify(token.value).value.email
  {
    match token
    case None => None
    case Some(t) =>
      match verify(t)
      case None => None
      case Some(p) => Some(AuthUser(p.sub, p.email))
  }

  // ------------------------------------------------------------ properties

  /** The two ways to fail a login are indistinguishable. */
  lemma LoginFailuresAlike(db: Db, unknown: string, u: User, wrong: string, compare: Comparer, sign: Signer)
    requires Valid(db) && u in db.users && !compare(wrong, u.passwordHash)
    requires forall v :: v in db.users ==> v.email != unknown
    ensures Login(db, unknown, wrong, compare, sign) == Login(db, u.email, wrong, compare, sign)
    ensures Login(db, u.email, wrong, compare, sign) == Err(Unauthorized(BadCredentials))
  {
    FindStoredUser(db, u);
  }

  lemma FindStoredUser(db: Db, u: User)
    requires Valid(db) && u in db.users
    ensures FindUserByEmail(db, u.email) == Some(u)
  {
    var v := FindUserByEmail(db, u.email).value;
    var i :| 0 <= i < |db.users| && db.users[i] == u;
    var j :| 0 <= j < |db.users| && db.users[j] == v;
    assert !(i < j) && !(j < i);
  }

  /** An email can be registered once: the second attempt is 409, whatever
      the name and password. */
  lemma RegisterTwiceConflicts(db: Db, n: Option<string>, m: Option<string>, email: string,
                               p: string, q: string, hash: Hasher)
    requires Valid(db) && Register(db, n, email, p, hash).Ok?
    ensures Register(Register(db, n, email, p, hash).value.0, m, email, q, hash) == Err(Conflict(EmailTaken))
  {
  }

  /** With a comparison that accepts a password against its own hash, a
      user who just registered can log in, and the token's payload names
      that user. */
  lemma RegisterThenLogin(db: Db, name: Option<string>, email: string, password: string,
                          hash: Hasher, compare: Comparer, sign: Signer)
    requires Valid(db) && Register(db, name, email, password, hash).Ok?
    requires compare(password, hash(password, HashRounds))
    ensures var (after, res) := Register(db, name, email, password, hash).value;
      Login(after, email, password, compare, sign) == Ok(LoginResult(sign(TokenPayload(res.id, email))))
  {
  }

  /** A token from a successful login, presented to a verifier that accepts
      what the signer signs, authenticates the request as that user. */
  lemma LoginTokenAuthenticates(db: Db, email: string, password: string, compare: Comparer,
                                sign: Signer, verify: Verifier)
    requires Login(db, email, password, compare, sign).Ok?
    requires forall p :: verify(sign(p)) == Some(p)
    ensures var u := FindUserByEmail(db, email).value;
      Authenticate(Some(Login(db, email, password, compare, sign).value.accessToken), verify)
        == Some(AuthUser(u.id, u.email))
  {
    var u := FindUserByEmail(db, email).value;
    assert verify(sign(TokenPayload(u.id, u.email))) == Some(TokenPayload(u.id, u.email));
  }
}
