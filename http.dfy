/** The pieces of the request/response cycle every handler shares. */
module Http {
  import opened Wrappers

  /** The JSON envelope `{ success, message }` together with the HTTP status. */
  datatype Reply = Reply(status: nat, success: bool, message: string)

  /** `!v` for a request field that is a string or `undefined`: a truthy field holds some text. */
  predicate Falsy(v: Option<string>)
    ensures !Falsy(v) ==> v.Some? && |v.value| > 0
    ensures Falsy(v) ==> v == None || v == Some("")
  {
    v.None? || v.value == ""
  }

  /** The process environment the handlers read; an unset variable is `None`. */
  datatype Env = Env(adminEmail: Option<string>, adminPassword: Option<string>, jwtSecret: string)

  /** `process.env.X || ""`. */
  function OrEmpty(v: Option<string>): (s: string)
    ensures Falsy(v) <==> s == ""
    ensures v.Some? ==> s == v.value
  {
    if v.Some? then v.value else ""
  }
}
