/** `authMiddleware(roles)`: where the bearer token comes from, the role
    check, the per-role account lookup and the 401/403/404 ladder that
    stands in front of every protected handler. */
module AuthMiddleware {
  import opened Common
  import opened Text
  import opened Store
  import SM = StudentModel
  import AM = AuthorityModel

  /** The two places a token can arrive: the `Authorization` header and the
      `token` cookie. */
  datatype Headers = Headers(authorization: Option<string>, cookieToken: Option<string>)

  const BearerScheme: string := "Bearer"
  const NotAuthorized: string := "Not authorized to access this route"
  const UserNotFound: string := "User not found"

  /** A non-empty `Authorization` header starting with `Bearer`. */
  predicate BearerHeader(h: Headers) {
    TruthyText(h.authorization) && StartsWith(h.authorization.value, BearerScheme)
  }

  /** The token the middleware reads. A bearer header always wins: its
      second space-separated word is taken, and when there is none the
      cookie is still not consulted. */
  function ExtractToken(h: Headers): (t: Option<string>)
    ensures BearerHeader(h) ==>
              (t.Some? <==> |Split(h.authorization.value, ' ')| >= 2)
              && (t.Some? ==> t.value == Split(h.authorization.value, ' ')[1])
    ensures !BearerHeader(h) ==> (t.Some? <==> TruthyText(h.cookieToken))
    ensures !BearerHeader(h) && t.Some? ==> t == h.cookieToken
    ensures t.Some? ==> ' ' !in t.value || !BearerHeader(h)
  {
    if BearerHeader(h) then
      var parts := Split(h.authorization.value, ' ');
      if |parts| >= 2 then Some(parts[1]) else None
    else if TruthyText(h.cookieToken) then h.cookieToken
    else None
  }

  /** The `roles` argument: omitted, one string, or an array of names. */
  datatype Roles = AnyRole | RoleText(text: string) | RoleList(names: seq<string>)

  /** `roles.includes(decoded.role)`. On a string this is a substring
      test, and an absent role is looked for as the text "undefined"; an
      array holds no absent element. */
  predicate RoleIncluded(roles: Roles, role: Option<string>) {
    match roles
    case AnyRole => true
    case RoleText(text) => Includes(text, if role.Some? then role.value else "undefined")
    case RoleList(names) => role.Some? && role.value in names
  }

  /** `!roles || roles.includes(decoded.role)`: an omitted or empty-string
      `roles` lets every role through. */
  predicate RolePasses(roles: Roles, role: Option<string>) {
    roles.AnyRole? || roles == RoleText("") || RoleIncluded(roles, role)
  }

  /** The token, when present, decoded by `verify`; None when the
      middleware answers 401. */
  function Decoded(h: Headers, verify: string -> Option<Claims>): (c: Option<Claims>)
    ensures c.Some? ==> TruthyText(ExtractToken(h)) && verify(ExtractToken(h).value) == c
    ensures c.None? ==> !TruthyText(ExtractToken(h)) || verify(ExtractToken(h).value).None?
  {
    var t := ExtractToken(h);
    if TruthyText(t) then verify(t.value) else None
  }

  /** The account of the decoded role with the decoded id, found by
      `findById` in that role's collection. */
  function LoadUser(c: Claims, students: seq<SM.Student>, authorities: seq<AM.Authority>,
                    admins: seq<Admin>): (u: Option<User>)
    ensures u.Some? ==> UserId(u.value) == c.id
    ensures u.Some? && u.value.StudentUser? ==> c.role == Some("student") && u.value.student in students
    ensures u.Some? && u.value.AuthorityUser? ==> c.role == Some("authority") && u.value.authority in authorities
    ensures u.Some? && u.value.AdminUser? ==> c.role == Some("admin") && u.value.admin in admins
    ensures u.None? <==>
              (c.role == Some("student") ==> forall i :: 0 <= i < |students| ==> students[i].id != c.id)
              && (c.role == Some("authority") ==> forall i :: 0 <= i < |authorities| ==> authorities[i].id != c.id)
              && (c.role == Some("admin") ==> forall i :: 0 <= i < |admins| ==> admins[i].id != c.id)
  {
    if c.role == Some("student") then
      match IndexOfId(students, StudentId, c.id)
      case Some(i) => Some(StudentUser(students[i]))
      case None => None
    else if c.role == Some("authority") then
      match IndexOfId(authorities, AuthorityId, c.id)
      case Some(i) => Some(AuthorityUser(authorities[i]))
      case None => None
    else if c.role == Some("admin") then
      match IndexOfId(admins, AdminId, c.id)
      case Some(i) => Some(AdminUser(admins[i]))
      case None => None
    else None
  }

  /** What the middleware does: deny with a status, or set `req.user` and
      call `next()` once. */
  datatype Gate = Denied(code: nat, message: string) | Admitted(user: User)

  function Authenticate(h: Headers, roles: Roles, verify: string -> Option<Claims>,
                        students: seq<SM.Student>, authorities: seq<AM.Authority>,
                        admins: seq<Admin>): (g: Gate)
    ensures g.Denied? ==> g.code in {401, 403, 404}
    ensures g.Denied? && g.code == 401 <==> Decoded(h, verify).None?
    ensures g.Denied? && g.code == 403 <==>
              Decoded(h, verify).Some? && !RolePasses(roles, Decoded(h, verify).value.role)
    ensures g.Denied? && g.code == 404 <==>
              Decoded(h, verify).Some? && RolePasses(roles, Decoded(h, verify).value.role)
              && LoadUser(Decoded(h, verify).value, students, authorities, admins).None?
    ensures g.Admitted? ==>
              Decoded(h, verify).Some? && RolePasses(roles, Decoded(h, verify).value.role)
              && LoadUser(Decoded(h, verify).value, students, authorities, admins) == Some(g.user)
              && UserId(g.user) == Decoded(h, verify).value.id
  {
    match Decoded(h, verify)
    case None => Denied(401, NotAuthorized)
    case Some(c) =>
      if !RolePasses(roles, c.role) then Denied(403, NotAuthorized)
      else
        match LoadUser(c, students, authorities, admins)
        case None => Denied(404, UserNotFound)
        case Some(u) => Admitted(u)
  }

  // ---------------------------------------------------------------------
  // Properties

  /** The role a loaded account was looked up under. */
  function KindOf(u: User): (r: string)
    ensures r in {"student", "authority", "admin"}
  {
    match u
    case StudentUser(_) => "student"
    case AuthorityUser(_) => "authority"
    case AdminUser(_) => "admin"
  }

  /** Whatever the cookie holds, a bearer header decides the token; a
      header `Bearer` with no second word leaves the request without one. */
  lemma BearerShadowsCookie(h: Headers, cookie: Option<string>)
    requires BearerHeader(h)
    ensures ExtractToken(h.(cookieToken := cookie)) == ExtractToken(h)
    ensures h.authorization == Some(BearerScheme) ==> ExtractToken(h).None?
  {
    if h.authorization == Some(BearerScheme) {
      assert Split(BearerScheme, ' ') == [BearerScheme] by { SplitNoSeparator(BearerScheme, ' '); }
    }
  }

  lemma {:induction false} SplitNoSeparator(s: string, sep: char)
    requires sep !in s
    ensures Split(s, sep) == [s]
  {
    if s != [] {
      SplitNoSeparator(s[1..], sep);
      assert [s[0]] + s[1..] == s;
    }
  }

  lemma {:induction false} SplitAtSeparator(p: string, t: string, sep: char)
    requires sep !in p && sep !in t
    ensures Split(p + [sep] + t, sep) == [p, t]
  {
    if p == [] {
      assert p + [sep] + t == [sep] + t;
      assert ([sep] + t)[1..] == t;
      SplitNoSeparator(t, sep);
    } else {
      assert (p + [sep] + t)[1..] == p[1..] + [sep] + t;
      SplitAtSeparator(p[1..], t, sep);
      assert [p[0]] + p[1..] == p;
    }
  }

  /** The header a client builds from a token, `Bearer <token>`, yields
      that token. */
  lemma BearerRoundTrip(t: string, cookie: Option<string>)
    requires ' ' !in t
    ensures ExtractToken(Headers(Some(BearerScheme + " " + t), cookie)) == Some(t)
  {
    var v := BearerScheme + " " + t;
    assert v == BearerScheme + [' '] + t;
    assert v[..|BearerScheme|] == BearerScheme;
    SplitAtSeparator(BearerScheme, t, ' ');
  }

  /** A text containing a longer text is impossible. */
  lemma {:induction false} IncludesNotLonger(s: string, sub: string)
    requires Includes(s, sub)
    ensures |sub| <= |s|
    decreases |s|
  {
    if !StartsWith(s, sub) {
      IncludesNotLonger(s[1..], sub);
    }
  }

  /** Every character of a contained text occurs in the containing one. */
  lemma IncludedCharsOccur(s: string, sub: string, j: nat)
    requires Includes(s, sub) && j < |sub|
    ensures sub[j] in s
  {
    IncludesIsOccurrence(s, sub);
    var i :| OccursAt(s, sub, i);
    assert s[i..i + |sub|][j] == s[i + j];
  }

  /** Among the three role names, each contains only itself. */
  lemma RoleNamesDistinct(name: string, role: string)
    requires name in {"student", "authority", "admin"} && role in {"student", "authority", "admin"}
    requires Includes(name, role)
    ensures role == name
  {
    IncludesNotLonger(name, role);
    if role != name {
      if role == "admin" {
        IncludedCharsOccur(name, role, 2);
      } else {
        IncludedCharsOccur(name, role, 0);
      }
    }
  }

  /** A route guarded by one role name admits only accounts of that role:
      the substring test lets other texts through, but no account is
      stored under them. */
  lemma SingleRoleAdmitsOnlyThatRole(h: Headers, name: string, verify: string -> Option<Claims>,
                                     students: seq<SM.Student>, authorities: seq<AM.Authority>,
                                     admins: seq<Admin>)
    requires name in {"student", "authority", "admin"}
    requires Authenticate(h, RoleText(name), verify, students, authorities, admins).Admitted?
    ensures KindOf(Authenticate(h, RoleText(name), verify, students, authorities, admins).user) == name
  {
    var c := Decoded(h, verify).value;
    var u := Authenticate(h, RoleText(name), verify, students, authorities, admins).user;
    assert LoadUser(c, students, authorities, admins) == Some(u);
    assert c.role == Some(KindOf(u));
    RoleNamesDistinct(name, KindOf(u));
  }

  /** The substring test as written: a token whose role is a proper piece
      of the guarded name passes the role check and is then answered 404,
      not 403. */
  lemma PartialRoleReachesLookup(h: Headers, verify: string -> Option<Claims>,
                                 students: seq<SM.Student>, authorities: seq<AM.Authority>,
                                 admins: seq<Admin>)
    requires Decoded(h, verify).Some? && Decoded(h, verify).value.role == Some("stud")
    ensures Authenticate(h, RoleText("student"), verify, students, authorities, admins) == Denied(404, UserNotFound)
  {
    assert StartsWith("student", "stud");
  }

  /** A token without a role never passes a single-name guard. */
  lemma MissingRoleForbidden(h: Headers, name: string, verify: string -> Option<Claims>,
                             students: seq<SM.Student>, authorities: seq<AM.Authority>,
                             admins: seq<Admin>)
    requires name in {"student", "authority", "admin"}
    requires Decoded(h, verify).Some? && Decoded(h, verify).value.role.None?
    ensures Authenticate(h, RoleText(name), verify, students, authorities, admins) == Denied(403, NotAuthorized)
  {
    if Includes(name, "undefined") {
      IncludesNotLonger(name, "undefined");
      IncludedCharsOccur(name, "undefined", 1);
    }
  }

  /** The token a student receives at login, sent as a bearer header,
      admits that student on a student route, whatever the cookie says. */
  lemma StudentLoginTokenAdmits(s: SM.Student, sign: Claims -> string, verify: string -> Option<Claims>,
                                cookie: Option<string>, students: seq<SM.Student>,
                                authorities: seq<AM.Authority>, admins: seq<Admin>)
    requires s in students && KeysDistinct(students, StudentId)
    requires verify(sign(SM.AuthClaims(s))) == Some(SM.AuthClaims(s))
    requires sign(SM.AuthClaims(s)) != "" && ' ' !in sign(SM.AuthClaims(s))
    ensures Authenticate(Headers(Some(BearerScheme + " " + sign(SM.AuthClaims(s))), cookie),
                         RoleText("student"), verify, students, authorities, admins)
            == Admitted(StudentUser(s))
  {
    var t := sign(SM.AuthClaims(s));
    BearerRoundTrip(t, cookie);
    assert Includes("student", "student") by { assert StartsWith("student", "student"); }
    var k :| 0 <= k < |students| && students[k] == s;
    IndexOfUniqueId(students, StudentId, k);
  }
}
