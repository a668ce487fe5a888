/**
 * The account handlers: user registration into the users collection, user
 * login, and admin login against the environment's credentials.
 */
module UserController {
  import opened Wrappers
  import opened JsString
  import opened Http
  import opened Crypto
  import opened Collection

  /** A document of the users collection; the password is stored only as a bcrypt digest. */
  datatype User = User(id: nat, name: string, email: string, password: Digest)

  const UserExists := "User already exists"
  const InvalidEmail := "Invalid email"
  const ShortPassword := "Password must be at least 8 characters"
  const InvalidCredentials := "Invalid email or password"
  const MinPasswordLength := 8

  /** `createToken(id)`: a token over `{ id }`, signed with JWT_SECRET. */
  function CreateToken(id: nat, secret: string): (t: Token)
    ensures Verify(t, secret) == Valid(Object(Some(id), None, None))
  {
    Sign(Object(Some(id), None, None), secret)
  }

  /** Distinct users get distinct tokens. */
  lemma CreateTokenInjective(a: nat, b: nat, secret: string)
    requires CreateToken(a, secret) == CreateToken(b, secret)
    ensures a == b
  {
    assert Verify(CreateToken(a, secret), secret).claims.id == Some(a);
  }

  predicate UniqueEmails(docs: seq<User>) {
    forall i, j :: 0 <= i < j < |docs| ==> docs[i].email != docs[j].email
  }

  predicate HasEmail(docs: seq<User>, email: string) {
    exists i :: 0 <= i < |docs| && docs[i].email == email
  }

  /** `userModel.findOne({ email })`: the first user with exactly this email. */
  function FindByEmail(docs: seq<User>, email: string): (r: Option<nat>)
    ensures r.Some? ==> r.value < |docs| && docs[r.value].email == email
    ensures r.None? <==> !HasEmail(docs, email)
    ensures r.Some? && UniqueEmails(docs) ==> forall i :: 0 <= i < |docs| && docs[i].email == email ==> i == r.value
  {
    IndexWhere(docs, (u: User) => u.email == email)
  }

  /** A success answers 200 `{ success: true, token, user }`; a refusal carries its reply. */
  datatype LoginResult = LoginOk(token: Token, user: User) | LoginRejected(reply: Reply)

  /** `loginUser`: look the email up, compare the password with the stored digest. */
  function LoginUser(docs: seq<User>, email: string, password: string, secret: string): (r: LoginResult)
    ensures r.LoginRejected? ==> r.reply == Reply(400, false, InvalidCredentials)
    ensures !HasEmail(docs, email) ==> r.LoginRejected?
    ensures r.LoginOk? ==>
      && r.user in docs && r.user.email == email
      && Compare(password, r.user.password)
      && r.token == CreateToken(r.user.id, secret)
  {
    match FindByEmail(docs, email)
    case None => LoginRejected(Reply(400, false, InvalidCredentials))
    case Some(i) =>
      if Compare(password, docs[i].password) then LoginOk(CreateToken(docs[i].id, secret), docs[i])
      else LoginRejected(Reply(400, false, InvalidCredentials))
  }

  /** With one user per email, login succeeds exactly when some user has this email and this password. */
  lemma LoginSucceedsIff(docs: seq<User>, email: string, password: string, secret: string)
    requires UniqueEmails(docs)
    ensures LoginUser(docs, email, password, secret).LoginOk?
        <==> exists i :: 0 <= i < |docs| && docs[i].email == email && Compare(password, docs[i].password)
  {
    var r := FindByEmail(docs, email);
    if r.Some? {
      forall i | 0 <= i < |docs| && docs[i].email == email ensures i == r.value { }
    }
  }

  /** Why `registerUser` refuses, checked in the handler's order: duplicate, email format, length. */
  function RegisterRefusal(docs: seq<User>, email: string, password: string, isEmail: string -> bool): (r: Option<Reply>)
    ensures HasEmail(docs, email) ==> r == Some(Reply(400, false, UserExists))
    ensures !HasEmail(docs, email) && !isEmail(email) ==> r == Some(Reply(400, false, InvalidEmail))
    ensures !HasEmail(docs, email) && isEmail(email) && Utf16Length(password) < MinPasswordLength
            ==> r == Some(Reply(400, false, ShortPassword))
    ensures r.None? <==> !HasEmail(docs, email) && isEmail(email) && Utf16Length(password) >= MinPasswordLength
  {
    if FindByEmail(docs, email).Some? then Some(Reply(400, false, UserExists))
    else if !isEmail(email) then Some(Reply(400, false, InvalidEmail))
    else if Utf16Length(password) < MinPasswordLength then Some(Reply(400, false, ShortPassword))
    else None
  }

  /** Eight characters is long enough; seven is not. */
  lemma PasswordBoundary(docs: seq<User>, email: string, isEmail: string -> bool)
    requires !HasEmail(docs, email) && isEmail(email)
    ensures RegisterRefusal(docs, email, "abcdefgh", isEmail).None?
    ensures RegisterRefusal(docs, email, "abcdefg", isEmail) == Some(Reply(400, false, ShortPassword))
  {
    assert Utf16Length("abcdefgh") == 8;
    assert Utf16Length("abcdefg") == 7;
  }

  /** A user freshly added under a new email can log in with the password given, and with no other. */
  lemma {:induction false} LoginAfterRegister(docs: seq<User>, u: User, password: string, salt: nat, secret: string)
    requires !HasEmail(docs, u.email) && u.password == Hash(password, salt)
    ensures LoginUser(docs + [u], u.email, password, secret) == LoginOk(CreateToken(u.id, secret), u)
    ensures forall q :: q != password ==> LoginUser(docs + [u], u.email, q, secret).LoginRejected?
  {
    var all := docs + [u];
    assert all[|docs|] == u;
    var r := FindByEmail(all, u.email);
    assert r.Some?;
  }

  /** A success answers 200 (not 201) `{ success: true, token, user }`; a refusal carries its reply. */
  datatype RegisterResult = Registered(token: Token, user: User) | Refused(reply: Reply)

  /** The users collection, in natural order. */
  class Users {
    var docs: seq<User>
    var nextId: nat

    ghost predicate Valid()
      reads this
    {
      && UniqueEmails(docs)
      && forall i :: 0 <= i < |docs| ==> docs[i].id < nextId
    }

    constructor ()
      ensures Valid() && docs == [] && nextId == 0
    {
      docs, nextId := [], 0;
    }

    /** `registerUser`: refuse, or save one user whose password is the digest and answer with a token. */
    method Register(name: string, email: string, password: string, isEmail: string -> bool, salt: nat, secret: string)
      returns (r: RegisterResult)
      requires Valid()
      modifies this
      ensures Valid()
      ensures RegisterRefusal(old(docs), email, password, isEmail).Some? ==>
        && r == Refused(RegisterRefusal(old(docs), email, password, isEmail).value)
        && docs == old(docs) && nextId == old(nextId)
      ensures RegisterRefusal(old(docs), email, password, isEmail).None? ==>
        var u := User(old(nextId), name, email, Hash(password, salt));
        && docs == old(docs) + [u] && nextId == old(nextId) + 1
        && r == Registered(CreateToken(u.id, secret), u)
    {
      var refusal := RegisterRefusal(docs, email, password, isEmail);
      if refusal.Some? {
        return Refused(refusal.value);
      }
      var u := User(nextId, name, email, Hash(password, salt));
      forall i, j | 0 <= i < j < |docs + [u]| ensures (docs + [u])[i].email != (docs + [u])[j].email {
        if j == |docs| {
          assert (docs + [u])[i] == docs[i];
        }
      }
      docs := docs + [u];
      nextId := nextId + 1;
      r := Registered(CreateToken(u.id, secret), u);
    }
  }

  /** The admin login body; either field may be missing. */
  datatype Credentials = Credentials(email: Option<string>, password: Option<string>)

  /** A success answers 200 `{ success: true, token }`; a refusal carries its reply. */
  datatype AdminLoginResult = AdminLoginOk(token: Token) | AdminLoginRejected(reply: Reply)

  /** `String(v)` for a string or `undefined`. */
  function Show(v: Option<string>): (s: string)
    ensures v.Some? ==> s == v.value
    ensures v.None? ==> s == "undefined"
  {
    if v.Some? then v.value else "undefined"
  }

  /**
   * `email + password` in JavaScript: string concatenation, where a missing
   * operand reads as "undefined"; two missing operands add up to the number
   * NaN, which the token library signs as its text.
   */
  function JsConcat(a: Option<string>, b: Option<string>): (s: string)
    ensures a.Some? && b.Some? ==> s == a.value + b.value
  {
    if a.None? && b.None? then "NaN" else Show(a) + Show(b)
  }

  /** `loginAdmin` as written: strict equality against ADMIN_EMAIL and ADMIN_PASSWORD, no trimming. */
  function LoginAdmin(body: Credentials, env: Env): (r: AdminLoginResult)
    ensures r.AdminLoginOk? <==> body.email == env.adminEmail && body.password == env.adminPassword
    ensures r.AdminLoginRejected? ==> r.reply == Reply(400, false, InvalidCredentials)
    ensures r.AdminLoginOk? && body.email.Some? && body.password.Some? ==>
      var s := body.email.value + body.password.value;
      Verify(r.token, env.jwtSecret) == if s == "" then Invalid else Valid(Text(s))
  {
    if body.email == env.adminEmail && body.password == env.adminPassword then
      AdminLoginOk(Sign(Text(JsConcat(body.email, body.password)), env.jwtSecret))
    else
      AdminLoginRejected(Reply(400, false, InvalidCredentials))
  }

  /** With ADMIN_EMAIL and ADMIN_PASSWORD unset, a request carrying neither field logs in as admin. */
  lemma UnsetEnvAdmitsEmptyBody(secret: string)
    ensures LoginAdmin(Credentials(None, None), Env(None, None, secret))
            == AdminLoginOk(Sign(Text("NaN"), secret))
  {
  }

  /**
   * `loginAdmin` as evidently intended: only configured credentials, both
   * supplied, log in; a variable that is unset or empty counts as not configured.
   */
  function LoginAdminConfigured(body: Credentials, env: Env): (r: AdminLoginResult)
    ensures r.AdminLoginOk? <==>
      && !Falsy(env.adminEmail) && !Falsy(env.adminPassword)
      && body.email == env.adminEmail && body.password == env.adminPassword
    ensures r.AdminLoginRejected? ==> r.reply == Reply(400, false, InvalidCredentials)
    ensures r.AdminLoginOk? ==>
      Verify(r.token, env.jwtSecret) == Valid(Text(env.adminEmail.value + env.adminPassword.value))
  {
    if !Falsy(body.email) && !Falsy(body.password)
       && body.email == env.adminEmail && body.password == env.adminPassword then
      AdminLoginOk(Sign(Text(body.email.value + body.password.value), env.jwtSecret))
    else
      AdminLoginRejected(Reply(400, false, InvalidCredentials))
  }

  /** Once both variables are set and non-empty, the corrected handler behaves exactly like the original. */
  lemma ConfiguredAgrees(body: Credentials, env: Env)
    requires !Falsy(env.adminEmail) && !Falsy(env.adminPassword)
    ensures LoginAdminConfigured(body, env) == LoginAdmin(body, env)
  {
  }
}
