/**
 * The admin gate (src/lib/adminAuth.ts): a token derived from the admin
 * password by HMAC-SHA256, the `admin_auth` cookie check, and the writes
 * that set or clear that cookie on a response.
 */
module AdminAuth {
  import opened Wrappers
  import opened JsString

  const CookieName: string := "admin_auth"

  /** Twelve hours, in seconds. */
  const AdminMaxAge: int := 60 * 60 * 12

  predicate IsHexDigit(c: char) {
    '0' <= c <= '9' || 'a' <= c <= 'f'
  }

  /** A SHA-256 digest in lower-case hexadecimal. */
  type HexDigest = s: string | |s| == 64 && forall i :: 0 <= i < |s| ==> IsHexDigit(s[i])
    witness seq(64, i => '0')

  /** `crypto.createHmac('sha256', key).update(message).digest('hex')`. */
  type Hmac = (string, string) -> HexDigest

  /** What the server process sees: `process.env.ADMIN_PASSWORD` and its HMAC. */
  datatype Env = Env(adminPassword: Option<string>, hmac: Hmac)

  /** `getAdminPassword()`: the variable, or "" when it is unset. */
  function AdminPassword(env: Env): (p: string)
    ensures Truthy(env.adminPassword) ==> p == env.adminPassword.value
    ensures !Truthy(env.adminPassword) ==> p == ""
  {
    OrDefault(env.adminPassword, "")
  }

  /** `getAdminToken()`: the password's HMAC keyed by itself, or "" without a password. */
  function AdminToken(env: Env): (t: string)
    ensures t == "" <==> !Truthy(env.adminPassword)
    ensures t != "" ==> |t| == 64 && t == env.hmac(AdminPassword(env), AdminPassword(env))
  {
    var password := AdminPassword(env);
    if password != "" then env.hmac(password, password) else ""
  }

  /** Text of seven-bit characters, whose UTF-8 bytes are its characters. */
  predicate IsAscii(s: string) {
    forall i :: 0 <= i < |s| ==> s[i] as int < 128
  }

  /**
   * `crypto.timingSafeEqual(Buffer.from(a), Buffer.from(b))` on ASCII text of
   * equal length: byte-wise equality, which is character-wise equality.
   */
  function BytesEqual(a: string, b: string): (r: bool)
    requires |a| == |b| && IsAscii(a) && IsAscii(b)
    ensures r <==> a == b
  {
    forall i :: 0 <= i < |a| ==> a[i] == b[i]
  }

  /**
   * `isAdminAuthed()` for a request whose `admin_auth` cookie is `cookie`
   * (`None` when the request has none).
   */
  function IsAdminAuthed(cookie: Option<string>, env: Env): (r: bool)
    requires cookie.Some? ==> IsAscii(cookie.value)
    ensures AdminToken(env) == "" ==> !r
    ensures !Truthy(cookie) ==> !r
    ensures cookie.Some? && |cookie.value| != |AdminToken(env)| ==> !r
    ensures r <==> AdminToken(env) != "" && cookie == Some(AdminToken(env))
  {
    var token := AdminToken(env);
    if token == "" || !Truthy(cookie) || |token| != |cookie.value| then false
    else
      assert IsAscii(token) by {
        forall i | 0 <= i < |token| ensures token[i] as int < 128 {
          assert IsHexDigit(token[i]);
        }
      }
      BytesEqual(token, cookie.value)
  }

  /** `requireAdmin()`: a 401 reply when the request is not authorised, nothing otherwise. */
  function RequireAdmin(cookie: Option<string>, env: Env): (r: Option<nat>)
    requires cookie.Some? ==> IsAscii(cookie.value)
    ensures r.Some? <==> !IsAdminAuthed(cookie, env)
    ensures r.Some? ==> r.value == 401
  {
    if !IsAdminAuthed(cookie, env) then Some(401) else None
  }

  /** The options `response.cookies.set` receives. */
  datatype CookieEntry = CookieEntry(
    value: string,
    httpOnly: bool,
    sameSite: string,
    secure: bool,
    path: string,
    maxAge: int)

  /** The `admin_auth` cookie `setAdminCookie` writes; `production` is `NODE_ENV === 'production'`. */
  function AdminCookie(env: Env, production: bool): CookieEntry {
    CookieEntry(AdminToken(env), true, "lax", production, "/", AdminMaxAge)
  }

  /** The expired, empty `admin_auth` cookie `clearAdminCookie` writes. */
  function ClearedCookie(production: bool): CookieEntry {
    CookieEntry("", true, "lax", production, "/", 0)
  }

  /** A JSON reply under construction: its status and its cookie jar, by cookie name. */
  class Response {
    var status: nat
    var cookies: map<string, CookieEntry>

    /** `NextResponse.json(body, { status })` sets no cookie. */
    constructor (status: nat)
      ensures this.status == status && cookies == map[]
    {
      this.status := status;
      cookies := map[];
    }
  }

  /** `setAdminCookie(response)`. */
  method SetAdminCookie(response: Response, env: Env, production: bool)
    modifies response
    ensures response.cookies == old(response.cookies)[CookieName := AdminCookie(env, production)]
    ensures response.status == old(response.status)
  {
    response.cookies := response.cookies[CookieName := AdminCookie(env, production)];
  }

  /** `clearAdminCookie(response)`. */
  method ClearAdminCookie(response: Response, production: bool)
    modifies response
    ensures response.cookies == old(response.cookies)[CookieName := ClearedCookie(production)]
    ensures response.status == old(response.status)
  {
    response.cookies := response.cookies[CookieName := ClearedCookie(production)];
  }

  /**
   * The `admin_auth` value a browser sends back after storing `jar`: a cookie
   * with a positive `maxAge` is kept, one with `maxAge` 0 is deleted.
   */
  function SentCookie(jar: map<string, CookieEntry>): (r: Option<string>)
    ensures r.Some? ==> CookieName in jar && jar[CookieName].maxAge > 0
    ensures r.Some? ==> r.value == jar[CookieName].value
  {
    if CookieName in jar && jar[CookieName].maxAge > 0 then Some(jar[CookieName].value) else None
  }

  /** While the password stays the same, the cookie `setAdminCookie` writes is accepted. */
  lemma SetThenAuthed(jar: map<string, CookieEntry>, env: Env, production: bool)
    requires Truthy(env.adminPassword)
    ensures var sent := SentCookie(jar[CookieName := AdminCookie(env, production)]);
      && sent == Some(AdminToken(env))
      && IsAscii(sent.value)
      && IsAdminAuthed(sent, env)
  {
    var token := AdminToken(env);
    forall i | 0 <= i < |token| ensures token[i] as int < 128 {
      assert IsHexDigit(token[i]);
    }
  }

  /** After `clearAdminCookie` the browser sends nothing, and even its empty value is refused. */
  lemma ClearThenRefused(jar: map<string, CookieEntry>, env: Env, production: bool)
    ensures SentCookie(jar[CookieName := ClearedCookie(production)]) == None
    ensures !IsAdminAuthed(None, env)
    ensures !IsAdminAuthed(Some(ClearedCookie(production).value), env)
  {
  }
}
