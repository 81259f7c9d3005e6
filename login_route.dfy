/** `POST /api/admin/login` (src/app/api/admin/login/route.ts). */
module LoginRoute {
  import opened Wrappers
  import opened JsString
  import opened AdminAuth

  /** The three ways a login attempt ends. */
  datatype Decision = SecretUnset | InvalidPassword | LoginOk

  /**
   * The route's guards: no configured secret is a server error; a missing,
   * empty or different password is refused. `password` is the body's
   * `password` when it is a string, `None` otherwise (`!==` never equates a
   * non-string with the secret).
   */
  function Decide(password: Option<string>, env: Env): (r: Decision)
    ensures r == SecretUnset <==> !Truthy(env.adminPassword)
    ensures r == LoginOk <==> Truthy(env.adminPassword) && password == env.adminPassword
    ensures !Truthy(password) ==> r != LoginOk
  {
    if !Truthy(env.adminPassword) then SecretUnset
    else if !Truthy(password) || password.value != env.adminPassword.value then InvalidPassword
    else LoginOk
  }

  /** The HTTP status of each decision. */
  function StatusOf(d: Decision): (s: nat)
    ensures d == LoginOk <==> s == 200
  {
    match d
    case SecretUnset => 500
    case InvalidPassword => 401
    case LoginOk => 200
  }

  /** The route: a fresh reply, carrying the admin cookie only when the password matched. */
  method Login(password: Option<string>, env: Env, production: bool) returns (res: Response)
    ensures fresh(res)
    ensures res.status == StatusOf(Decide(password, env))
    ensures Decide(password, env) != LoginOk ==> res.cookies == map[]
    ensures Decide(password, env) == LoginOk
      ==> res.cookies == map[CookieName := AdminCookie(env, production)]
  {
    var decision := Decide(password, env);
    if decision == SecretUnset {
      res := new Response(500);
      return;
    }
    if decision == InvalidPassword {
      res := new Response(401);
      return;
    }
    res := new Response(200);
    SetAdminCookie(res, env, production);
  }

  /** A successful login hands out a cookie that the admin gate then accepts. */
  lemma LoginAuthorizes(password: Option<string>, env: Env, production: bool)
    requires Decide(password, env) == LoginOk
    ensures var sent := SentCookie(map[CookieName := AdminCookie(env, production)]);
      sent.Some? && IsAscii(sent.value) && IsAdminAuthed(sent, env)
  {
    SetThenAuthed(map[], env, production);
  }
}
