/**
 * How the tokens minted by the login handlers fare at the admin gate: the
 * round trip from `loginAdmin` to `adminAuth`, and what the gate does with a
 * user's login token.
 */
module AdminSession {
  import opened Wrappers
  import opened JsString
  import opened Http
  import opened Crypto
  import opened AdminAuth
  import opened UserController

  /**
   * A token from a successful (configured) admin login is accepted by a
   * legacy string guard, not merely by the fail-open branch; with no stored
   * admin it is the environment guard that accepts it.
   */
  lemma AdminLoginTokenAccepted(body: Credentials, env: Env, store: seq<AdminSetting>)
    requires LoginAdminConfigured(body, env).AdminLoginOk?
    ensures var v := Gate(Some(LoginAdminConfigured(body, env).token), store, env);
      v.Pass? && v.adminEmail.None? && (v.route == LegacyStored || v.route == LegacyEnv)
    ensures store == [] ==>
      Gate(Some(LoginAdminConfigured(body, env).token), store, env) == Pass(None, LegacyEnv)
  {
    var t := LoginAdminConfigured(body, env).token;
    var s := env.adminEmail.value + env.adminPassword.value;
    assert Verify(t, env.jwtSecret) == Valid(Text(s));
    assert t.Jwt?;
    assert LegacyEnvMatch(s, env);
  }

  /** The same holds of the handler as written whenever both variables are set and non-empty. */
  lemma AdminLoginTokenAcceptedAsWritten(body: Credentials, env: Env, store: seq<AdminSetting>)
    requires !Falsy(env.adminEmail) && !Falsy(env.adminPassword)
    requires LoginAdmin(body, env).AdminLoginOk?
    ensures var v := Gate(Some(LoginAdmin(body, env).token), store, env);
      v.Pass? && (v.route == LegacyStored || v.route == LegacyEnv)
  {
    ConfiguredAgrees(body, env);
    AdminLoginTokenAccepted(body, env, store);
  }

  /**
   * With ADMIN_EMAIL and ADMIN_PASSWORD unset and no stored admin, the token
   * the handler as written mints for an empty body matches no admin guard:
   * only the fail-open branch lets it through.
   */
  lemma UnsetEnvTokenOnlyFailsOpen(secret: string)
    ensures var env := Env(None, None, secret);
      var r := LoginAdmin(Credentials(None, None), env);
      r.AdminLoginOk? && Gate(Some(r.token), [], env) == Pass(None, Fallthrough)
  {
    UnsetEnvAdmitsEmptyBody(secret);
  }

  /**
   * With both variables set to "", the handler as written accepts the body
   * `{ email: "", password: "" }` and answers 200, but the token it mints
   * carries the empty string, which `jwt.verify` rejects: the gate answers 401.
   */
  lemma EmptyEnvLoginTokenRefused(secret: string, store: seq<AdminSetting>)
    ensures var env := Env(Some(""), Some(""), secret);
      var r := LoginAdmin(Credentials(Some(""), Some("")), env);
      r.AdminLoginOk? && Gate(Some(r.token), store, env) == Reject401(TokenInvalid)
  {
  }

  /**
   * A plain user's login token carries `{ id }` only, yet the gate as written
   * passes it: every admin route is open to every registered user.
   */
  lemma UserTokenPassesGate(docs: seq<User>, email: string, password: string, store: seq<AdminSetting>, env: Env)
    requires LoginUser(docs, email, password, env.jwtSecret).LoginOk?
    ensures Gate(Some(LoginUser(docs, email, password, env.jwtSecret).token), store, env) == Pass(None, Fallthrough)
  {
    var r := LoginUser(docs, email, password, env.jwtSecret);
    assert Verify(r.token, env.jwtSecret) == Valid(Object(Some(r.user.id), None, None));
  }

  /** The fail-closed gate refuses a user's login token. */
  lemma UserTokenRejectedWhenClosed(docs: seq<User>, email: string, password: string, store: seq<AdminSetting>, env: Env)
    requires LoginUser(docs, email, password, env.jwtSecret).LoginOk?
    ensures GateFailClosed(Some(LoginUser(docs, email, password, env.jwtSecret).token), store, env) == Reject401(NotAdmin)
  {
    UserTokenPassesGate(docs, email, password, store, env);
    FailClosedAgrees(Some(LoginUser(docs, email, password, env.jwtSecret).token), store, env);
  }

  /** The fail-closed gate still admits every token a configured admin login issues. */
  lemma ClosedGateAcceptsAdminLogin(body: Credentials, env: Env, store: seq<AdminSetting>)
    requires LoginAdminConfigured(body, env).AdminLoginOk?
    ensures GateFailClosed(Some(LoginAdminConfigured(body, env).token), store, env).Pass?
  {
    AdminLoginTokenAccepted(body, env, store);
    FailClosedAgrees(Some(LoginAdminConfigured(body, env).token), store, env);
  }
}
