/**
 * src/auth/AuthProvider.ts: how a request's bearer credential is found and verified,
 * and the permission decisions the actions rely on. Everything here only reads the
 * store, so each decision is a function of a snapshot of the tables.
 */
module AuthProvider {
  import opened Wrappers
  import opened Entities
  import opened Kernel
  import opened Queries
  import opened Strings

  /**
   * The parts of an HTTP request the credential parse reads: the `Authorization`
   * header, the `glxauth` query parameter and the `Cookie` header; None is an
   * absent (undefined) one.
   */
  datatype Request = Request(authorization: Option<string>, glxauth: Option<string>, cookie: Option<string>)

  // ---------------------------------------------------------------------------
  // Credential extraction

  /**
   * `authHeader && authHeader.split(' ')[1]`: an empty header is falsy and is the
   * token itself (""); otherwise the token is the word after the first space, and a
   * header without a space has no second word (undefined). The scheme word before
   * the space is never looked at.
   */
  function HeaderToken(h: string): (r: Option<string>)
    ensures h == "" ==> r == Some("")
    ensures h != "" ==> (r.Some? <==> ' ' in h)
    ensures h != "" && r.Some? ==>
      var rest := h[IndexOf(h, ' ') + 1..];
      ' ' !in r.value && r.value <= rest && (|r.value| == |rest| || rest[|r.value|] == ' ')
  {
    if h == "" then Some("")
    else
      var parts := Split(h, ' ');
      if |parts| > 1 then Some(parts[1]) else None
  }

  /** Whatever word stands before the space, `scheme token` yields `token`: "Bearer" is not required. */
  lemma SchemeNotChecked(scheme: string, token: string)
    requires ' ' !in scheme && ' ' !in token
    ensures HeaderToken(scheme + " " + token) == Some(token)
  {
    var h := scheme + " " + token;
    assert Join([scheme, token], ' ') == h by {
      assert Join([scheme, token][1..], ' ') == token;
    }
    SplitJoin([scheme, token], ' ');
    assert h[|scheme|] == ' ';
  }

  /** The crumb prefix the cookie parse looks for. */
  const CookiePrefix: string := "glxauth="

  /** `coList.find((el) => el.startsWith('glxauth='))`, as the position of the crumb found. */
  function FindCrumb(crumbs: seq<string>): (r: Option<nat>)
    ensures r.Some? ==>
      && r.value < |crumbs| && CookiePrefix <= crumbs[r.value]
      && forall k | 0 <= k < r.value :: !(CookiePrefix <= crumbs[k])
    ensures r.None? ==> forall k | 0 <= k < |crumbs| :: !(CookiePrefix <= crumbs[k])
  {
    if crumbs == [] then None
    else if CookiePrefix <= crumbs[0] then Some(0)
    else
      var r := FindCrumb(crumbs[1..]);
      if r.Some? then Some(r.value + 1) else None
  }

  /**
   * The cookie branch: trim the header, split it on ';', take the first crumb that
   * starts with `glxauth=` and return the second '='-separated field of that crumb.
   * A token exists exactly when some crumb starts with `glxauth=`; it holds no '='
   * and is what follows `glxauth=` in the first such crumb, up to the next '=' or
   * the end of that crumb.
   */
  function CookieToken(cookie: string): (r: Option<string>)
    ensures r.Some? <==>
      exists k | 0 <= k < |Split(Trim(cookie), ';')| :: CookiePrefix <= Split(Trim(cookie), ';')[k]
    ensures r.Some? ==> '=' !in r.value
    ensures r.Some? ==>
      var crumbs := Split(Trim(cookie), ';');
      && FindCrumb(crumbs).Some?
      && RunsToNextEquals(crumbs[FindCrumb(crumbs).value], r.value)
  {
    var crumbs := Split(Trim(cookie), ';');
    var found := FindCrumb(crumbs);
    if found.None? then None
    else
      var crumb := crumbs[found.value];
      CrumbValue(crumb);
      assert CookiePrefix <= Split(Trim(cookie), ';')[found.value];
      Some(Split(crumb, '=')[1])
  }

  /** `value` follows `glxauth=` at the start of `crumb` and ends at the next '=' or at the end of the crumb. */
  predicate RunsToNextEquals(crumb: string, value: string) {
    var n := |CookiePrefix + value|;
    CookiePrefix + value <= crumb && (n == |crumb| || crumb[n] == '=')
  }

  /**
   * A crumb starting with `glxauth=` splits on '=' into "glxauth" and the text after
   * it, which runs to the next '=' or the end of the crumb.
   */
  lemma CrumbValue(crumb: string)
    requires CookiePrefix <= crumb
    ensures |Split(crumb, '=')| > 1
    ensures RunsToNextEquals(crumb, Split(crumb, '=')[1])
  {
    assert crumb[7] == '=';
    var i := IndexOf(crumb, '=');
    assert crumb[..7] == "glxauth";
    assert i == 7;
    var rest := crumb[8..];
    var v := Split(crumb, '=')[1];
    assert v == Split(rest, '=')[0];
    assert crumb == CookiePrefix + rest;
    assert |v| == |rest| || rest[|v|] == '=';
    assert |v| < |rest| ==> crumb[|CookiePrefix + v|] == rest[|v|];
  }

  /** The cookie the integration tests send, `glxauth=<token>;`, yields the token. */
  lemma CookieOfTestShape(token: string)
    requires ';' !in token && '=' !in token
    ensures CookieToken(CookiePrefix + token + ";") == Some(token)
  {
    var crumb := CookiePrefix + token;
    var c := crumb + ";";
    assert c == crumb + [';'] + "";
    assert Trim(c) == c by {
      assert c[0] == 'g' && c[|c| - 1] == ';';
    }
    assert ';' !in crumb by {
      assert crumb == "glxauth" + ['='] + token;
    }
    SplitPair(crumb, "", ';');
    assert crumb == "glxauth" + ['='] + token;
    SplitPair("glxauth", token, '=');
  }

  /**
   * Crumbs are not trimmed after the split, so a `glxauth=` crumb that follows
   * another crumb and "; " (the separator of section 4.2.1 of RFC 6265) is not found.
   */
  lemma CookieAfterSpaceMissed(token: string)
    requires ';' !in token
    requires token == "" || !IsWhitespace(token[|token| - 1])
    ensures CookieToken("a=b; " + CookiePrefix + token) == None
  {
    SpaceCookieTrimmed(token);
    SpaceCookieCrumbs(token);
    NeitherCrumbMatches("a=b", [' '] + CookiePrefix + token);
  }

  lemma SpaceCookieTrimmed(token: string)
    requires token == "" || !IsWhitespace(token[|token| - 1])
    ensures Trim("a=b; " + CookiePrefix + token) == "a=b; " + CookiePrefix + token
  {
    var head := "a=b; " + CookiePrefix;
    assert head[0] == 'a' && head[|head| - 1] == '=';
    assert !IsWhitespace(head[0]) && !IsWhitespace(head[|head| - 1]);
    LastOfConcat(head, token);
    var c := head + token;
    assert !IsWhitespace(c[0]) && !IsWhitespace(c[|c| - 1]);
  }

  lemma LastOfConcat(head: string, tail: string)
    requires |head| > 0
    ensures (head + tail)[0] == head[0]
    ensures (head + tail)[|head + tail| - 1] == if tail == "" then head[|head| - 1] else tail[|tail| - 1]
  {
  }

  lemma SpaceCookieCrumbs(token: string)
    requires ';' !in token
    ensures Split("a=b; " + CookiePrefix + token, ';') == ["a=b", [' '] + CookiePrefix + token]
  {
    var second: string := [' '] + CookiePrefix + token;
    assert "a=b; " + CookiePrefix + token == "a=b" + [';'] + second;
    NotInConcat(';', [' '] + CookiePrefix, token);
    SplitPair("a=b", second, ';');
  }

  lemma NotInConcat(ch: char, a: string, b: string)
    requires ch !in a && ch !in b
    ensures ch !in a + b
  {
  }

  lemma NeitherCrumbMatches(first: string, second: string)
    requires first == "a=b" && |second| > 0 && second[0] == ' '
    ensures FindCrumb([first, second]).None?
  {
    assert first[0] != CookiePrefix[0];
    assert second[0] != CookiePrefix[0];
  }

  /**
   * The token of `bearerTokenValidation`, by precedence: an Authorization header
   * decides alone (even when it yields nothing), then the glxauth query parameter,
   * then the cookie.
   */
  function ExtractToken(req: Request): (r: Option<string>)
    ensures req.authorization.Some? ==> r == HeaderToken(req.authorization.value)
    ensures req.authorization.None? && req.glxauth.Some? ==> r == req.glxauth
    ensures req.authorization.None? && req.glxauth.None? && req.cookie.Some? ==> r == CookieToken(req.cookie.value)
    ensures req.authorization.None? && req.glxauth.None? && req.cookie.None? ==> r.None?
  {
    match (req.authorization, req.glxauth, req.cookie)
    case (Some(h), _, _) => HeaderToken(h)
    case (None, Some(q), _) => Some(q)
    case (None, None, Some(c)) => CookieToken(c)
    case (None, None, None) => None
  }

  /** With an Authorization header present, the query parameter and the cookie never matter. */
  lemma HeaderOverridesRest(req: Request, glxauth: Option<string>, cookie: Option<string>)
    requires req.authorization.Some?
    ensures ExtractToken(req) == ExtractToken(req.(glxauth := glxauth, cookie := cookie))
  {
  }

  /** bearerTokenValidation: no token or no crypto client gives null; otherwise the verifier's verdict on the token. */
  function BearerTokenValidation(req: Request, cc: Option<CryptoClient>): (r: Option<JwtToken>)
    ensures ExtractToken(req).None? || cc.None? ==> r.None?
    ensures ExtractToken(req).Some? && cc.Some? ==> r == cc.value.jwtVerifyAccessToken(ExtractToken(req).value)
  {
    var token := ExtractToken(req);
    if token.None? || cc.None? then None
    else cc.value.jwtVerifyAccessToken(token.value)
  }

  // ---------------------------------------------------------------------------
  // Permission decisions

  /** `perm.find(({ permission_name }) => permission_name === permission)` found something. */
  function HasPermissionNamed(perms: seq<Permission>, name: string): (r: bool)
    ensures r <==> exists p | p in perms :: p.permission_name == name
  {
    if perms == [] then false
    else perms[0].permission_name == name || HasPermissionNamed(perms[1..], name)
  }

  /**
   * isAllowed(username, permission): false for an unknown user name; otherwise true
   * exactly when one of the user's resolved permissions carries that name.
   */
  function IsAllowed(t: Tables, username: string, permission: string): (r: bool)
    ensures UserByName(t.authUser, username).None? ==> !r
    ensures UserByName(t.authUser, username).Some? ==>
      (r <==> exists p | p in UserPermissions(t, UserByName(t.authUser, username).value.e_id) :: p.permission_name == permission)
  {
    var user := UserByName(t.authUser, username);
    user.Some? && HasPermissionNamed(UserPermissions(t, user.value.e_id), permission)
  }

  /**
   * isAllowed in terms of the tables alone: the named user exists and one of their
   * groups has an edge to a permission of that name.
   */
  lemma IsAllowedIffGranted(t: Tables, username: string, permission: string)
    ensures IsAllowed(t, username, permission) <==>
      && UserByName(t.authUser, username).Some?
      && exists g, p | g in UserGroups(t, UserByName(t.authUser, username).value.e_id) ::
           p in GroupPermissions(t, g.e_id) && p.permission_name == permission
  {
    var user := UserByName(t.authUser, username);
    if user.Some? {
      var uid := user.value.e_id;
      if IsAllowed(t, username, permission) {
        var p :| p in UserPermissions(t, uid) && p.permission_name == permission;
        UserPermissionsIsUnion(t, uid, p);
      }
      if exists g, p | g in UserGroups(t, uid) :: p in GroupPermissions(t, g.e_id) && p.permission_name == permission {
        var g, p :| g in UserGroups(t, uid) && p in GroupPermissions(t, g.e_id) && p.permission_name == permission;
        UserPermissionsIsUnion(t, uid, p);
      }
    }
  }

  /**
   * authorizeToken(username, token, requestType): the user must exist, a crypto
   * client must be present, and hash(user.seed, token) must be nonempty and equal to
   * the stored password; then the answer is isAllowed(username, 'api').
   */
  function AuthorizeToken(t: Tables, cc: Option<CryptoClient>, username: string, token: string, requestType: string): (r: bool)
    ensures r <==>
      && UserByName(t.authUser, username).Some?
      && cc.Some?
      && cc.value.getHash(UserByName(t.authUser, username).value.seed, token) != ""
      && cc.value.getHash(UserByName(t.authUser, username).value.seed, token) == UserByName(t.authUser, username).value.password
      && IsAllowed(t, username, "api")
  {
    var user := UserByName(t.authUser, username);
    if user.None? then false
    else
      var a := if cc.Some? then Some(cc.value.getHash(user.value.seed, token)) else None;
      if a.None? || a.value == "" || a.value != user.value.password then false
      else IsAllowed(t, username, "api")
  }

  /** The request type plays no part in authorizeToken. */
  lemma AuthorizeIgnoresRequestType(t: Tables, cc: Option<CryptoClient>, username: string, token: string, a: string, b: string)
    ensures AuthorizeToken(t, cc, username, token, a) == AuthorizeToken(t, cc, username, token, b)
  {
  }

  /** validateAcces(token, requestType): isAllowed for the token's user name and the request type. */
  function ValidateAccess(t: Tables, token: JwtToken, requestType: string): (r: bool)
    ensures r <==>
      && UserByName(t.authUser, token.username).Some?
      && exists p | p in UserPermissions(t, UserByName(t.authUser, token.username).value.e_id) :: p.permission_name == requestType
  {
    IsAllowed(t, token.username, requestType)
  }

  /**
   * The guard every action opens with, `if (data) { allowed = permissonValidation(data, p) }`:
   * a verified caller whose user name is allowed `p`.
   */
  predicate CallerHolds(t: Tables, data: Option<JwtToken>, p: string)
    ensures CallerHolds(t, data, p) <==>
      && data.Some?
      && UserByName(t.authUser, data.value.username).Some?
      && exists g, q | g in UserGroups(t, UserByName(t.authUser, data.value.username).value.e_id) ::
           q in GroupPermissions(t, g.e_id) && q.permission_name == p
  {
    if data.None? then false
    else
      IsAllowedIffGranted(t, data.value.username, p);
      IsAllowed(t, data.value.username, p)
  }
}
