/**
 * The `adminAuth` middleware: the gate in front of every admin route. It
 * decides, from the `token` header, the admin-settings collection and the
 * environment, whether the request is rejected with 401 or passed on to the
 * next handler (and, for a structured token, with which admin email).
 */
module AdminAuth {
  import opened Wrappers
  import opened JsString
  import opened Http
  import opened Crypto
  import opened Collection

  /** A document of the admin-settings collection. */
  datatype AdminSetting = AdminSetting(email: string, password: string)

  /** The collection's schema: email and password required (non-empty), email unique. */
  predicate WellFormedSettings(store: seq<AdminSetting>) {
    && (forall i :: 0 <= i < |store| ==> store[i].email != "" && store[i].password != "")
    && (forall i, j :: 0 <= i < j < |store| ==> store[i].email != store[j].email)
  }

  /** Which guard let a request through. */
  datatype Route = Structured | LegacyStored | LegacyEnv | Fallthrough

  /** The middleware's decision; `adminEmail` is what it stores in `req.adminEmail`. */
  datatype Verdict = Reject401(message: string) | Pass(adminEmail: Option<string>, route: Route)

  const TokenRequired := "Unauthorized! Token is required."
  const TokenInvalid := "Invalid or expired token. Please login again."

  /** `adminSettingsModel.findOne({ email })` finds a document. */
  predicate StoredEmail(store: seq<AdminSetting>, email: string)
    ensures StoredEmail(store, email) <==> IndexWhere(store, (a: AdminSetting) => a.email == email).Some?
  {
    exists i :: 0 <= i < |store| && store[i].email == email
  }

  /** The structured-token guard: role "admin", a truthy email that is a stored admin or ADMIN_EMAIL. */
  predicate StructuredAdmin(c: Claims, store: seq<AdminSetting>, env: Env)
    ensures StructuredAdmin(c, store, env) ==> c.Object? && c.email.Some? && |c.email.value| > 0
    ensures StructuredAdmin(c, store, env) && store == [] ==> c.email == env.adminEmail
  {
    && c.Object?
    && c.role == Some("admin")
    && !Falsy(c.email)
    && (StoredEmail(store, c.email.value) || c.email == env.adminEmail)
  }

  /** The first legacy guard: the string contains the email of the first stored admin (`findOne({})`). */
  predicate LegacyStoredMatch(s: string, store: seq<AdminSetting>)
    ensures LegacyStoredMatch(s, store) ==> |store| > 0 && |store[0].email| <= |s|
    ensures |store| > 0 && StartsWith(s, store[0].email) ==> LegacyStoredMatch(s, store)
  {
    |store| > 0 && Includes(s, store[0].email)
  }

  /**
   * The second legacy guard: the string is ADMIN_EMAIL + ADMIN_PASSWORD, or
   * starts with a non-empty ADMIN_EMAIL. Every accepted string starts with
   * ADMIN_EMAIL, and once that is non-empty the password plays no part.
   */
  predicate LegacyEnvMatch(s: string, env: Env)
    ensures LegacyEnvMatch(s, env) ==> StartsWith(s, OrEmpty(env.adminEmail))
    ensures !Falsy(env.adminEmail) ==> (LegacyEnvMatch(s, env) <==> StartsWith(s, env.adminEmail.value))
  {
    var envEmail := OrEmpty(env.adminEmail);
    var envToken := envEmail + OrEmpty(env.adminPassword);
    assert envToken[..|envEmail|] == envEmail;
    s == envToken || (envEmail != "" && StartsWith(s, envEmail))
  }

  /** The middleware as written, including its final fail-open `next()`. */
  function Gate(header: Option<Token>, store: seq<AdminSetting>, env: Env): (v: Verdict)
    ensures v.Reject401? <==> !HeaderPresent(header) || Verify(header.value, env.jwtSecret).Invalid?
    ensures v.Pass? && v.adminEmail.Some? ==> v.route == Structured
    ensures v.Pass? && v.route == Structured ==>
      var c := Verify(header.value, env.jwtSecret).claims;
      StructuredAdmin(c, store, env) && v.adminEmail == c.email
  {
    if !HeaderPresent(header) then Reject401(TokenRequired)
    else match Verify(header.value, env.jwtSecret)
      case Invalid => Reject401(TokenInvalid)
      case Valid(c) =>
        if StructuredAdmin(c, store, env) then Pass(c.email, Structured)
        else if c.Text? && LegacyStoredMatch(c.text, store) then Pass(None, LegacyStored)
        else if c.Text? && LegacyEnvMatch(c.text, env) then Pass(None, LegacyEnv)
        else Pass(None, Fallthrough)
  }

  /** An absent or empty header is refused before anything else is looked at. */
  lemma MissingTokenRejected(header: Option<Token>, store: seq<AdminSetting>, env: Env)
    requires !HeaderPresent(header)
    ensures Gate(header, store, env) == Reject401(TokenRequired)
  {
  }

  /** A token that fails signature verification is refused, whatever the store and the environment. */
  lemma BadSignatureRejected(t: Token, store: seq<AdminSetting>, env: Env)
    requires t != Raw("") && Verify(t, env.jwtSecret).Invalid?
    ensures Gate(Some(t), store, env) == Reject401(TokenInvalid)
  {
  }

  /** A structured admin token naming a stored admin or ADMIN_EMAIL passes and sets `adminEmail`. */
  lemma StructuredAccepted(id: Option<nat>, email: string, store: seq<AdminSetting>, env: Env)
    requires email != ""
    requires StoredEmail(store, email) || Some(email) == env.adminEmail
    ensures Gate(Some(Sign(Object(id, Some("admin"), Some(email)), env.jwtSecret)), store, env)
            == Pass(Some(email), Structured)
  {
  }

  /**
   * A string token containing the first stored admin's email passes, with no
   * `adminEmail`; only the empty string, which no token that verifies can carry, is refused.
   */
  lemma LegacyStoredAccepted(s: string, store: seq<AdminSetting>, env: Env)
    requires LegacyStoredMatch(s, store)
    ensures Gate(Some(Sign(Text(s), env.jwtSecret)), store, env)
            == if s == "" then Reject401(TokenInvalid) else Pass(None, LegacyStored)
  {
  }

  /**
   * Otherwise a string token equal to ADMIN_EMAIL + ADMIN_PASSWORD, or starting
   * with ADMIN_EMAIL, passes, unless it is the empty string (both variables
   * set to "").
   */
  lemma LegacyEnvAccepted(s: string, store: seq<AdminSetting>, env: Env)
    requires !LegacyStoredMatch(s, store) && LegacyEnvMatch(s, env)
    ensures Gate(Some(Sign(Text(s), env.jwtSecret)), store, env)
            == if s == "" then Reject401(TokenInvalid) else Pass(None, LegacyEnv)
  {
  }

  /**
   * The environment guard never looks past ADMIN_EMAIL: any string token that
   * starts with a non-empty ADMIN_EMAIL passes a legacy guard, whatever
   * password (or other text) follows it.
   */
  lemma EnvEmailPrefixPasses(e: string, rest: string, store: seq<AdminSetting>, env: Env)
    requires env.adminEmail == Some(e) && e != ""
    ensures var v := Gate(Some(Sign(Text(e + rest), env.jwtSecret)), store, env);
      v.Pass? && v.adminEmail.None? && (v.route == LegacyStored || v.route == LegacyEnv)
  {
    assert (e + rest)[..|e|] == e;
  }

  /**
   * The stored-admin guard matches any string containing the first stored
   * email; with the schema's constraints that email is non-empty, so a match
   * needs a token at least as long as it.
   */
  lemma LegacyStoredNeedsEmail(s: string, store: seq<AdminSetting>)
    requires WellFormedSettings(store) && LegacyStoredMatch(s, store)
    ensures 0 < |store[0].email| <= |s|
  {
  }

  /** Without the schema's constraint, a stored admin with an empty email would unlock every non-empty string token. */
  lemma EmptyStoredEmailUnlocksLegacy(s: string, store: seq<AdminSetting>, env: Env)
    requires |store| > 0 && store[0].email == ""
    ensures Gate(Some(Sign(Text(s), env.jwtSecret)), store, env)
            == if s == "" then Reject401(TokenInvalid) else Pass(None, LegacyStored)
  {
    assert OccursAt(s, "", 0);
  }

  /**
   * Fail-open: every token whose signature verifies reaches the next handler.
   * The gate rejects exactly the absent, empty, malformed or badly signed tokens.
   */
  lemma SignedTokensPass(claims: Claims, store: seq<AdminSetting>, env: Env)
    ensures Gate(Some(Sign(claims, env.jwtSecret)), store, env).Pass? <==> claims != EmptyPayload
  {
  }

  const NotAdmin := "Unauthorized! Admin token required."

  /**
   * The gate with its last branch closed: a verified token that matches none
   * of the three admin guards is refused instead of passed.
   */
  function GateFailClosed(header: Option<Token>, store: seq<AdminSetting>, env: Env): (v: Verdict)
    ensures v.Pass? ==> HeaderPresent(header) && Verify(header.value, env.jwtSecret).Valid?
    ensures v.Pass? ==>
      var c := Verify(header.value, env.jwtSecret).claims;
      StructuredAdmin(c, store, env)
      || (c.Text? && (LegacyStoredMatch(c.text, store) || LegacyEnvMatch(c.text, env)))
  {
    if !HeaderPresent(header) then Reject401(TokenRequired)
    else match Verify(header.value, env.jwtSecret)
      case Invalid => Reject401(TokenInvalid)
      case Valid(c) =>
        if StructuredAdmin(c, store, env) then Pass(c.email, Structured)
        else if c.Text? && LegacyStoredMatch(c.text, store) then Pass(None, LegacyStored)
        else if c.Text? && LegacyEnvMatch(c.text, env) then Pass(None, LegacyEnv)
        else Reject401(NotAdmin)
  }

  /** The closed gate agrees with the original except on requests the original lets through by falling through. */
  lemma FailClosedAgrees(header: Option<Token>, store: seq<AdminSetting>, env: Env)
    ensures var open := Gate(header, store, env);
      GateFailClosed(header, store, env)
        == if open.Pass? && open.route == Fallthrough then Reject401(NotAdmin) else open
  {
  }
}
