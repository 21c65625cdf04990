/**
 * `AuthService`: registering, logging in, updating and deleting admins.  The
 * table of admins is the class `AdminStore`; bcrypt's `hash` and `compare` and
 * JWT's `sign` are the parameters `hash`, `compare` and `sign`, and the
 * environment is the record `Env`.
 */
module AuthService {
  import opened Wrappers
  import opened Strings
  import opened Errors

  datatype Admin = Admin(id: nat, name: string, username: string, password: string, isSuperAdmin: bool)

  datatype RegisterAdminDto = RegisterAdminDto(name: string, username: string, password: string, isSuperAdmin: Option<bool>)
  datatype UpdateAdminDto = UpdateAdminDto(name: Option<string>, username: Option<string>, password: Option<string>, isSuperAdmin: Option<bool>)
  datatype LoginAdminDto = LoginAdminDto(username: string, password: string)

  /** What a token carries. */
  datatype Payload = Payload(id: nat, username: string)

  /** `process.env`: an unset variable is the empty string. */
  datatype Env = Env(bcryptSalt: string, jwtSecret: string)

  const UsernameAlreadyTaken := "Username already taken"
  const InvalidLoginData := "Username or password incorrect"
  const SaltMissing := "BCRYPT_SALT is not defined in environment variables"
  const DefaultSecret := "secret"

  function AdminNotFound(adminId: nat): string {
    "Admin with ID:" + IntToString(adminId) + " not found"
  }

  // ---- usernames --------------------------------------------------------------------

  /** `username.trim().toLowerCase()`. */
  function Normalize(username: string): (r: string)
    ensures |r| <= |username| && Trimmed(r)
    ensures forall i :: 0 <= i < |r| ==> !IsCapital(r[i])
  {
    var t := Trim(username);
    assert forall i :: 0 <= i < |t| ==> ToLower(t)[i] == LowerChar(t[i]);
    ToLower(t)
  }

  /** A normalised name normalises to itself, so storing it and looking it up again agree. */
  lemma NormalizeIdempotent(username: string)
    ensures Normalize(Normalize(username)) == Normalize(username)
  {
    var n := Normalize(username);
    TrimmedIsFixpoint(n);
    assert ToLower(n) == n;
  }

  /** Names that differ only in surrounding white space and in letter case are the same user. */
  lemma NormalizeIgnoresCaseAndPadding(username: string, pad: string)
    requires AllSpaces(pad)
    ensures Normalize(pad + username) == Normalize(username)
    ensures Normalize(username + pad) == Normalize(username)
    ensures Normalize(ToLower(username)) == Normalize(username)
  {
    TrimStartOfPadding(pad, username);
    TrimOfTrailingPadding(username, pad);
    TrimCommutesLower(username);
    LowerTwice(Trim(username));
  }

  /** A Cyrillic login name is folded like a Latin one. */
  lemma CyrillicNamesFold()
    ensures Normalize(" \U{0410}\U{0414}\U{041C}\U{0418}\U{041D} ") == "\U{0430}\U{0434}\U{043C}\U{0438}\U{043D}"
  {
    var t := "\U{0410}\U{0414}\U{041C}\U{0418}\U{041D}";
    assert " " + t + " " == " \U{0410}\U{0414}\U{041C}\U{0418}\U{041D} ";
    NormalizeIgnoresCaseAndPadding(t, " ");
    NormalizeIgnoresCaseAndPadding(" " + t, " ");
    CapitalsFold(t);
  }

  lemma CapitalsFold(t: string)
    requires t == "\U{0410}\U{0414}\U{041C}\U{0418}\U{041D}"
    ensures Normalize(t) == "\U{0430}\U{0434}\U{043C}\U{0438}\U{043D}"
  {
    assert Trimmed(t);
    TrimmedIsFixpoint(t);
    var l := ToLower(t);
    assert l[0] == '\U{0430}' && l[1] == '\U{0434}' && l[2] == '\U{043C}' && l[3] == '\U{0438}' && l[4] == '\U{043D}';
  }

  /** Trailing white space is trimmed away whatever precedes it. */
  lemma TrimOfTrailingPadding(s: string, pad: string)
    requires AllSpaces(pad)
    ensures Trim(s + pad) == Trim(s)
  {
    TrimStartSpec(s);
    var t := TrimStart(s);
    if t == [] {
      assert s == s[..|s| - |t|];
      TrimStartOfPadding(s, pad);
      TrimStartOfSpaces(pad);
      assert TrimStart(s + pad) == [];
    } else {
      TrimStartAppend(s, pad);
      TrimEndOfSpaces(t, pad);
    }
  }

  lemma {:induction false} TrimStartOfSpaces(s: string)
    requires AllSpaces(s)
    ensures TrimStart(s) == []
  {
    if s != [] {
      assert AllSpaces(s[1..]) by {
        assert forall i :: 0 <= i < |s[1..]| ==> s[1..][i] == s[i + 1];
      }
      TrimStartOfSpaces(s[1..]);
    }
  }

  /** Leading white space that stops before the end of `s` stops at the same place in `s + y`. */
  lemma {:induction false} TrimStartAppend(s: string, y: string)
    requires TrimStart(s) != []
    ensures TrimStart(s + y) == TrimStart(s) + y
  {
    if IsSpace(s[0]) {
      assert (s + y)[1..] == s[1..] + y;
      TrimStartAppend(s[1..], y);
    }
  }

  lemma {:induction false} TrimEndOfSpaces(s: string, y: string)
    requires AllSpaces(y)
    ensures TrimEnd(s + y) == TrimEnd(s)
  {
    if y == [] {
      assert s + y == s;
    } else {
      assert (s + y)[..|s + y| - 1] == s + y[..|y| - 1];
      assert AllSpaces(y[..|y| - 1]) by {
        assert forall i :: 0 <= i < |y| - 1 ==> y[..|y| - 1][i] == y[i];
      }
      TrimEndOfSpaces(s, y[..|y| - 1]);
    }
  }

  lemma {:induction false} TrimStartOfPadding(pad: string, s: string)
    requires AllSpaces(pad)
    ensures TrimStart(pad + s) == TrimStart(s)
  {
    if pad != [] {
      assert (pad + s)[1..] == pad[1..] + s;
      TrimStartOfPadding(pad[1..], s);
    } else {
      assert pad + s == s;
    }
  }

  lemma {:induction false} TrimStartCommutesLower(s: string)
    ensures TrimStart(ToLower(s)) == ToLower(TrimStart(s))
  {
    if s != [] {
      assert ToLower(s)[1..] == ToLower(s[1..]);
      TrimStartCommutesLower(s[1..]);
    }
  }

  lemma {:induction false} TrimEndCommutesLower(s: string)
    ensures TrimEnd(ToLower(s)) == ToLower(TrimEnd(s))
  {
    if s != [] {
      assert ToLower(s)[..|s| - 1] == ToLower(s[..|s| - 1]);
      TrimEndCommutesLower(s[..|s| - 1]);
    }
  }

  lemma TrimCommutesLower(s: string)
    ensures Trim(ToLower(s)) == ToLower(Trim(s))
  {
    TrimStartCommutesLower(s);
    TrimEndCommutesLower(TrimStart(s));
  }

  lemma LowerTwice(s: string)
    ensures ToLower(ToLower(s)) == ToLower(s)
  {
  }

  /** `findOne({ where: { username: normalised } })`: the first admin with that name. */
  function FindByUsername(admins: seq<Admin>, username: string): (r: Option<Admin>)
    ensures r.Some? ==> r.value in admins && r.value.username == Normalize(username)
    ensures r.None? <==> forall a :: a in admins ==> a.username != Normalize(username)
  {
    if admins == [] then None
    else if admins[0].username == Normalize(username) then Some(admins[0])
    else FindByUsername(admins[1..], username)
  }

  /** The position of the admin with id `id`. */
  function FindById(admins: seq<Admin>, id: nat): (r: Option<nat>)
    ensures r.Some? ==> r.value < |admins| && admins[r.value].id == id
    ensures r.None? <==> forall k :: 0 <= k < |admins| ==> admins[k].id != id
  {
    if admins == [] then None
    else if admins[0].id == id then Some(0)
    else match FindById(admins[1..], id)
      case None => None
      case Some(k) => Some(k + 1)
  }

  /** The admins other than those with id `id`, in order. */
  function WithoutId(admins: seq<Admin>, id: nat): (r: seq<Admin>)
    ensures forall a :: a in r <==> a in admins && a.id != id
    ensures |r| <= |admins|
  {
    if admins == [] then []
    else if admins[0].id == id then WithoutId(admins[1..], id)
    else [admins[0]] + WithoutId(admins[1..], id)
  }

  /** No two share an id, nor a username. */
  predicate Distinct(admins: seq<Admin>) {
    (forall i, j :: 0 <= i < j < |admins| ==> admins[i].id != admins[j].id)
    && (forall i, j :: 0 <= i < j < |admins| ==> admins[i].username != admins[j].username)
  }

  lemma {:induction false} WithoutIdDistinct(admins: seq<Admin>, id: nat)
    requires Distinct(admins)
    ensures Distinct(WithoutId(admins, id))
  {
    if admins != [] {
      var tail := admins[1..];
      assert Distinct(tail);
      WithoutIdDistinct(tail, id);
      if admins[0].id != id {
        var rest := WithoutId(tail, id);
        var r := [admins[0]] + rest;
        forall j | 0 < j < |r|
          ensures r[0].id != r[j].id && r[0].username != r[j].username
        {
          assert r[j] in rest;
          var k :| 0 <= k < |tail| && tail[k] == r[j];
          assert admins[k + 1] == r[j];
        }
      }
    }
  }

  // ---- privileges -------------------------------------------------------------------

  /** `if (data.isSuperAdmin) delete data.isSuperAdmin`: a true flag is dropped, a false one kept. */
  function Stripped(flag: Option<bool>): (r: Option<bool>)
    ensures r != Some(true)
    ensures flag != Some(true) ==> r == flag
  {
    if flag == Some(true) then None else flag
  }

  /** The admin `admin.update(...)` leaves: the name and flag when given, the password when a hash was made, the id and username never. */
  function Updated(a: Admin, data: UpdateAdminDto, hashed: Option<string>): (r: Admin)
    ensures r.id == a.id && r.username == a.username
    ensures r.name == (if data.name.Some? then data.name.value else a.name)
    ensures r.password == (if hashed.Some? then hashed.value else a.password)
    ensures r.isSuperAdmin ==> a.isSuperAdmin
    ensures r.isSuperAdmin == (a.isSuperAdmin && data.isSuperAdmin != Some(false))
  {
    var flag := Stripped(data.isSuperAdmin);
    Admin(a.id,
          if data.name.Some? then data.name.value else a.name,
          a.username,
          if hashed.Some? then hashed.value else a.password,
          if flag.Some? then flag.value else a.isSuperAdmin)
  }

  /** The secret tokens are signed with: `JWT_SECRET || "secret"`. */
  function SigningSecret(env: Env): (s: string)
    ensures s != ""
    ensures env.jwtSecret != "" ==> s == env.jwtSecret
  {
    if env.jwtSecret != "" then env.jwtSecret else DefaultSecret
  }

  // ---- login ------------------------------------------------------------------------

  /** `login(data)`: a token for `{id, username}` when the name is known and the password matches its hash. */
  function Login(admins: seq<Admin>, data: LoginAdminDto, env: Env,
                 compare: (string, string) -> bool, sign: (Payload, string) -> string): (r: Result<string, Thrown>)
    ensures r.Err? ==> r.error == BadRequest(InvalidLoginData)
    ensures r.Ok? <==> FindByUsername(admins, data.username).Some?
                        && compare(data.password, FindByUsername(admins, data.username).value.password)
    ensures r.Ok? ==> var a := FindByUsername(admins, data.username).value;
                      r.value == sign(Payload(a.id, a.username), SigningSecret(env))
  {
    match FindByUsername(admins, data.username)
    case None => Err(BadRequest(InvalidLoginData))
    case Some(admin) =>
      if !compare(data.password, admin.password) then Err(BadRequest(InvalidLoginData))
      else Ok(sign(Payload(admin.id, admin.username), SigningSecret(env)))
  }

  /** An unknown name and a wrong password cannot be told apart: both give the same error. */
  lemma LoginFailsUniformly(admins: seq<Admin>, data: LoginAdminDto, env: Env,
                            compare: (string, string) -> bool, sign: (Payload, string) -> string,
                            other: LoginAdminDto)
    requires FindByUsername(admins, data.username).None?
    requires FindByUsername(admins, other.username).Some?
    requires !compare(other.password, FindByUsername(admins, other.username).value.password)
    ensures Login(admins, data, env, compare, sign) == Login(admins, other, env, compare, sign)
  {
  }

  lemma {:induction false} FindAppended(admins: seq<Admin>, created: Admin, username: string)
    requires FindByUsername(admins, username).None?
    requires created.username == Normalize(username)
    ensures FindByUsername(admins + [created], username) == Some(created)
  {
    if admins != [] {
      assert (admins + [created])[1..] == admins[1..] + [created];
      FindAppended(admins[1..], created, username);
    }
  }

  /**
   * The admin `register` adds can log in with the name it registered under,
   * written with any leading padding and any case, and with its password.
   */
  lemma RegisteredCanLogIn(admins: seq<Admin>, created: Admin, registered: string, data: LoginAdminDto, env: Env,
                           compare: (string, string) -> bool, sign: (Payload, string) -> string)
    requires FindByUsername(admins, registered).None?
    requires created.username == Normalize(registered)
    requires Normalize(data.username) == Normalize(registered)
    requires compare(data.password, created.password)
    ensures Login(admins + [created], data, env, compare, sign) == Ok(sign(Payload(created.id, created.username), SigningSecret(env)))
  {
    FindAppended(admins, created, data.username);
  }

  // ---- the store --------------------------------------------------------------------

  class AdminStore {
    var admins: seq<Admin>
    var nextId: nat

    /** Ids are distinct and below the next one to hand out; no two admins share a username. */
    ghost predicate Valid()
      reads this
    {
      (forall i :: 0 <= i < |admins| ==> admins[i].id < nextId) && Distinct(admins)
    }

    constructor()
      ensures Valid() && admins == [] && nextId == 1
    {
      admins := [];
      nextId := 1;
    }

    /**
     * `register(data)`: a taken (normalised) name is a conflict; otherwise, after
     * the salt check, exactly one admin is added with the normalised name, the
     * hashed password and no super-admin rights.
     */
    method Register(data: RegisterAdminDto, env: Env, hash: (string, string) -> string) returns (r: Result<Admin, Thrown>)
      requires Valid()
      modifies this
      ensures Valid()
      ensures FindByUsername(old(admins), data.username).Some? ==>
        r == Err(Conflict(UsernameAlreadyTaken)) && admins == old(admins) && nextId == old(nextId)
      ensures FindByUsername(old(admins), data.username).None? && env.bcryptSalt == "" ==>
        r == Err(Plain(SaltMissing)) && admins == old(admins) && nextId == old(nextId)
      ensures FindByUsername(old(admins), data.username).None? && env.bcryptSalt != "" ==>
        r == Ok(Admin(old(nextId), data.name, Normalize(data.username), hash(data.password, env.bcryptSalt), false))
        && admins == old(admins) + [r.value] && nextId == old(nextId) + 1
    {
      var admin := FindByUsername(admins, data.username);
      if admin.Some? {
        return Err(Conflict(UsernameAlreadyTaken));
      }
      if env.bcryptSalt == "" {
        return Err(Plain(SaltMissing));
      }
      var hashedPassword := hash(data.password, env.bcryptSalt);
      var flag := Stripped(data.isSuperAdmin);
      var created := Admin(nextId, data.name, Normalize(data.username), hashedPassword, if flag.Some? then flag.value else false);
      admins := admins + [created];
      nextId := nextId + 1;
      r := Ok(created);
    }

    /**
     * `updateAdmin(adminId, data)`: a non-empty password is hashed first, so a
     * missing salt is reported before an unknown id; then the admin is updated
     * in place.
     */
    method UpdateAdmin(adminId: nat, data: UpdateAdminDto, env: Env, hash: (string, string) -> string) returns (r: Option<Thrown>)
      requires Valid()
      modifies this
      ensures Valid() && nextId == old(nextId)
      ensures data.password.Some? && data.password.value != "" && env.bcryptSalt == "" ==>
        r == Some(Plain(SaltMissing)) && admins == old(admins)
      ensures !(data.password.Some? && data.password.value != "" && env.bcryptSalt == "") && FindById(old(admins), adminId).None? ==>
        r == Some(NotFound(AdminNotFound(adminId))) && admins == old(admins)
      ensures !(data.password.Some? && data.password.value != "" && env.bcryptSalt == "") && FindById(old(admins), adminId).Some? ==>
        var k := FindById(old(admins), adminId).value;
        var hashed := if data.password.Some? && data.password.value != "" then Some(hash(data.password.value, env.bcryptSalt)) else None;
        r == None && admins == old(admins)[k := Updated(old(admins)[k], data, hashed)]
    {
      var hashedPassword: Option<string> := None;
      if data.password.Some? && data.password.value != "" {
        if env.bcryptSalt == "" {
          return Some(Plain(SaltMissing));
        }
        hashedPassword := Some(hash(data.password.value, env.bcryptSalt));
      }
      var k := FindById(admins, adminId);
      if k.None? {
        return Some(NotFound(AdminNotFound(adminId)));
      }
      admins := admins[k.value := Updated(admins[k.value], data, hashedPassword)];
      r := None;
    }

    /** `deleteAdmin(id)`: every admin with that id goes, and nothing is reported when there is none. */
    method DeleteAdmin(id: nat)
      requires Valid()
      modifies this
      ensures Valid() && nextId == old(nextId)
      ensures admins == WithoutId(old(admins), id)
    {
      WithoutIdDistinct(admins, id);
      admins := WithoutId(admins, id);
    }
  }
}
