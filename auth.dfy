/** `auth_routes.py`: registration and login. Password hashing and token
    signing are foreign functions: the hash is a function parameter, and a
    token is represented by the payload it signs. */
module AuthRoutes {
  import opened Common
  import opened Text
  import opened Store

  datatype RegisterBody = RegisterBody(name: Option<string>, email: Option<string>, password: Option<string>, role: Option<string>)

  datatype LoginBody = LoginBody(email: Option<string>, password: Option<string>)

  /** The claims `create_token` signs: exactly these four fields. */
  datatype TokenPayload = TokenPayload(uid: Id, role: string, name: string, email: string)

  /** The body of a successful register or login: the token and the role. */
  datatype Session = Session(token: TokenPayload, role: string)

  /** `(data.get('role') or 'student').lower()`. */
  function RoleOf(role: Option<string>): (r: string)
    ensures IsLowerCase(r)
    ensures !Present(role) ==> r == "student"
    ensures Present(role) ==> SameIgnoringCase(r, role.value)
  {
    LowerIsLowerCase(if Present(role) then role.value else "student");
    LowerIdempotent(if Present(role) then role.value else "student");
    Lower(if Present(role) then role.value else "student")
  }

  /** `find_one({'email': email})`: the first user with that email. */
  function FindEmail(users: seq<User>, email: string): (r: Option<nat>)
    ensures r.Some? ==> r.value < |users| && users[r.value].email == email
    ensures r.Some? ==> forall j :: 0 <= j < r.value ==> users[j].email != email
    ensures r.None? <==> forall j :: 0 <= j < |users| ==> users[j].email != email
  {
    if users == [] then None
    else if users[0].email == email then Some(0)
    else match FindEmail(users[1..], email)
      case None => None
      case Some(k) => Some(k + 1)
  }

  /** No two users share an email. */
  predicate EmailsUnique(users: seq<User>) {
    forall i, j :: 0 <= i < j < |users| ==> users[i].email != users[j].email
  }

  /** The user `register` inserts under `id`, or its error, in the order the
      handler checks: the three fields, the admin switch, the email. */
  function NewUserOf(users: seq<User>, body: RegisterBody, allowAdminReg: bool, hash: string -> string, id: Id, now: Time)
    : (r: Response<User>)
    ensures (!Present(body.name) || !Present(body.email) || !Present(body.password)) ==> r == Err(400, "Missing fields")
    ensures Present(body.name) && Present(body.email) && Present(body.password) ==>
              && (RoleOf(body.role) == "admin" && !allowAdminReg ==> r == Err(403, "Admin registration disabled"))
              && (!(RoleOf(body.role) == "admin" && !allowAdminReg) && FindEmail(users, body.email.value).Some? ==>
                    r == Err(400, "Email already registered"))
    ensures r.Ok? <==> Present(body.name) && Present(body.email) && Present(body.password)
                       && !(RoleOf(body.role) == "admin" && !allowAdminReg) && FindEmail(users, body.email.value).None?
    ensures r.Ok? ==>
              && r.value == User(id, body.name.value, body.email.value, hash(body.password.value), RoleOf(body.role),
                                 0, 1, {}, [], now)
              && (EmailsUnique(users) ==> EmailsUnique(users + [r.value]))
  {
    if !Present(body.name) || !Present(body.email) || !Present(body.password) then Err(400, "Missing fields")
    else if RoleOf(body.role) == "admin" && !allowAdminReg then Err(403, "Admin registration disabled")
    else if FindEmail(users, body.email.value).Some? then Err(400, "Email already registered")
    else
      Ok(User(id, body.name.value, body.email.value, hash(body.password.value), RoleOf(body.role), 0, 1, {}, [], now))
  }

  /** `POST /auth/register`. */
  method Register(db: Db, body: RegisterBody, allowAdminReg: bool, hash: string -> string, now: Time)
    returns (r: Response<Session>)
    requires db.Valid()
    modifies db`users, db`nextId
    ensures db.Valid()
    ensures var u := NewUserOf(old(db.users), body, allowAdminReg, hash, old(db.nextId), now);
            && (u.Err? ==> r == Err(u.status, u.message) && unchanged(db))
            && (u.Ok? ==> db.users == old(db.users) + [u.value]
                          && r == Ok(Session(TokenPayload(u.value.id, u.value.role, u.value.name, u.value.email), u.value.role)))
  {
    var u := NewUserOf(db.users, body, allowAdminReg, hash, db.nextId, now);
    if u.Err? {
      return Err(u.status, u.message);
    }
    var id := db.NewId();
    db.users := db.users + [u.value];
    r := Ok(Session(TokenPayload(id, u.value.role, u.value.name, u.value.email), u.value.role));
  }

  /** `POST /auth/login`, `verify` standing for `verify_password`. */
  function Login(users: seq<User>, body: LoginBody, verify: (string, string) -> bool): (r: Response<Session>)
    ensures (!Present(body.email) || !Present(body.password)) ==> r == Err(400, "Missing fields")
    ensures Present(body.email) && Present(body.password) ==>
              match FindEmail(users, body.email.value)
              case None => r == Err(401, "Invalid credentials")
              case Some(k) =>
                if verify(body.password.value, users[k].passwordHash) then
                  r == Ok(Session(TokenPayload(users[k].id, users[k].role, users[k].name, users[k].email), users[k].role))
                else r == Err(401, "Invalid credentials")
  {
    if !Present(body.email) || !Present(body.password) then Err(400, "Missing fields")
    else match FindEmail(users, body.email.value)
      case None => Err(401, "Invalid credentials")
      case Some(k) =>
        var u := users[k];
        if !verify(body.password.value, u.passwordHash) then Err(401, "Invalid credentials")
        else Ok(Session(TokenPayload(u.id, u.role, u.name, u.email), u.role))
  }

  lemma FindEmailAppended(users: seq<User>, u: User)
    requires FindEmail(users, u.email).None?
    ensures FindEmail(users + [u], u.email) == Some(|users|)
  {
    var all := users + [u];
    var r := FindEmail(all, u.email);
    assert all[|users|].email == u.email;
    assert forall j :: 0 <= j < |users| ==> all[j] == users[j];
  }

  /** Registering and then logging in with the same email and password
      (under a `verify` that accepts a password against its own hash) gives
      the registration's session back. */
  lemma RegisterThenLogin(users: seq<User>, body: RegisterBody, allowAdminReg: bool, hash: string -> string,
                          verify: (string, string) -> bool, id: Id, now: Time)
    requires forall p :: verify(p, hash(p))
    requires NewUserOf(users, body, allowAdminReg, hash, id, now).Ok?
    ensures var u := NewUserOf(users, body, allowAdminReg, hash, id, now).value;
            Login(users + [u], LoginBody(body.email, body.password), verify)
              == Ok(Session(TokenPayload(id, u.role, u.name, u.email), u.role))
  {
    var u := NewUserOf(users, body, allowAdminReg, hash, id, now).value;
    FindEmailAppended(users, u);
  }
}
