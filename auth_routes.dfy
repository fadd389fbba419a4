/** The handlers of `backend/routes/auth.js`: registration, login and the
    caller's profile. bcrypt's `hash` and `compare` are the parameters
    `hash` and `verify`; the signed token is modelled by its payload. */
module AuthRoutes {
  import opened Sql
  import opened Schema
  import opened Http
  import UserModel

  /** `{ username, email, password, full_name, address }` of `/register`. */
  datatype RegisterBody = RegisterBody(
    username: string, email: string, password: string,
    fullName: Option<string>, address: Option<string>)

  /** `{ email, password }` of `/login`. */
  datatype LoginBody = LoginBody(email: string, password: string)

  /** `{ username, full_name, address }` of `PUT /profile`. */
  datatype ProfileBody = ProfileBody(username: string, fullName: Option<string>, address: Option<string>)

  /** The `user` object of a register or login response. */
  datatype PublicUser = PublicUser(
    id: int, username: string, email: string, fullName: Option<string>, address: Option<string>)

  /** `{ user, token }`. */
  datatype Session = Session(user: PublicUser, token: Token)

  function PublicOf(v: UserModel.UserView): PublicUser {
    PublicUser(v.id, v.username, v.email, v.fullName, v.address)
  }

  const LoginFailed: string := "Invalid email or password."

  /** `POST /register`. An email already in use is refused with 400 before
      anything is written; a username already in use is caught by the
      UNIQUE constraint instead and surfaces as a 500, after the serial id
      has been consumed. */
  method Register(db: Db, body: RegisterBody, hash: string -> string) returns (res: Response<Session>)
    requires db.Valid()
    modifies db`users, db`nextUserId, db`clock
    ensures db.Valid()
    ensures res.status == 400 <==> UserModel.EmailTaken(old(db.users), body.email)
    ensures res.status == 400 ==>
      res == Failure(400, "User already exists with this email.") && db.users == old(db.users)
    ensures res.status == 500 <==>
      !UserModel.EmailTaken(old(db.users), body.email) &&
      UserModel.UsernameTaken(old(db.users), body.username, old(db.nextUserId))
    ensures res.status == 500 ==> res == Failure(500, "Error creating user.") && db.users == old(db.users)
    ensures res.status == 201 ==>
      var u := User(old(db.nextUserId), body.username, body.email, hash(body.password),
                    body.fullName, body.address, old(db.clock));
      && db.users == old(db.users) + [u]
      && res == Success(201, Some("User created successfully"),
                        Session(PublicUser(u.id, u.username, u.email, u.fullName, u.address), Token(u.id)))
    ensures res.status in {201, 400, 500}
  {
    var existing := UserModel.FindByEmail(db.users, body.email);
    if existing.Some? {
      return Failure(400, "User already exists with this email.");
    }
    var created := UserModel.Create(
      db, UserModel.NewUser(body.username, body.email, body.password, body.fullName, body.address), hash);
    if created.Err? {
      return Failure(500, "Error creating user.");
    }
    var v := created.value;
    res := Success(201, Some("User created successfully"), Session(PublicOf(v), Token(v.id)));
  }

  /** `POST /login`. An unknown email and a wrong password get the same
      response, so a caller cannot tell which one it was. */
  function Login(users: seq<User>, body: LoginBody, verify: (string, string) -> bool): (res: Response<Session>)
    ensures res.status != 200 ==> res == Failure(400, LoginFailed)
    ensures res.status == 200 ==>
      exists k :: 0 <= k < |users| && users[k].email == body.email &&
        verify(body.password, users[k].password) &&
        res == Success(200, Some("Login successful"),
                       Session(PublicUser(users[k].id, users[k].username, users[k].email,
                                          users[k].fullName, users[k].address), Token(users[k].id)))
  {
    match UserModel.FindByEmail(users, body.email)
    case None => Failure(400, LoginFailed)
    case Some(u) =>
      if !verify(body.password, u.password) then Failure(400, LoginFailed)
      else
        assert exists k :: 0 <= k < |users| && users[k] == u;
        Success(200, Some("Login successful"),
                Session(PublicUser(u.id, u.username, u.email, u.fullName, u.address), Token(u.id)))
  }

  /** The converse of `Login`'s contract, which needs emails to be unique:
      a stored account whose digest matches the password logs in as that
      account. */
  lemma LoginSucceedsForMatch(users: seq<User>, body: LoginBody, verify: (string, string) -> bool, k: int)
    requires UniqueLogins(users)
    requires 0 <= k < |users| && users[k].email == body.email && verify(body.password, users[k].password)
    ensures Login(users, body, verify) ==
      Success(200, Some("Login successful"),
              Session(PublicUser(users[k].id, users[k].username, users[k].email,
                                 users[k].fullName, users[k].address), Token(users[k].id)))
  {
    UserModel.FindByEmailUnique(users, k);
  }

  /** Registering and then logging in with the same email and password
      succeeds with the new account, given that bcrypt's compare accepts a
      password against its own digest. */
  lemma RegisteredUserCanLogIn(users: seq<User>, u: User, password: string,
                               hash: string -> string, verify: (string, string) -> bool)
    requires UniqueLogins(users + [u])
    requires u.password == hash(password) && verify(password, hash(password))
    ensures Login(users + [u], LoginBody(u.email, password), verify) ==
      Success(200, Some("Login successful"),
              Session(PublicUser(u.id, u.username, u.email, u.fullName, u.address), Token(u.id)))
  {
    LoginSucceedsForMatch(users + [u], LoginBody(u.email, password), verify, |users|);
  }

  /** `GET /profile`. A principal whose account no longer exists makes
      `user.id` throw, which the handler turns into a 500. */
  function Profile(users: seq<User>, principal: Principal): (res: Response<UserModel.UserView>)
    ensures res.status == 500 <==> principal.id !in UserIds(users)
    ensures res.status == 500 ==> res == Failure(500, "Error fetching profile.")
    ensures res.status != 500 ==>
      res.Success? && res.status == 200 && res.payload.id == principal.id &&
      exists u :: u in users && UserModel.View(u) == res.payload
  {
    match UserModel.FindById(users, principal.id)
    case None => Failure(500, "Error fetching profile.")
    case Some(v) => Success(200, None, v)
  }

  /** `PUT /profile`: only username, full name and address are forwarded,
      so the body cannot change the email or the password. A taken username
      is a 500; an account that no longer exists still gets 200, with no
      user in the response. */
  method UpdateProfile(db: Db, principal: Principal, body: ProfileBody)
    returns (res: Response<Option<UserModel.UserView>>)
    requires db.Valid()
    modifies db`users
    ensures db.Valid()
    ensures res.status == 500 <==>
      principal.id in UserIds(old(db.users)) && UserModel.UsernameTaken(old(db.users), body.username, principal.id)
    ensures res.status == 500 ==> res == Failure(500, "Error updating profile.") && db.users == old(db.users)
    ensures res.status != 500 ==>
      && res.Success? && res.status == 200 && res.message == Some("Profile updated successfully")
      && db.users == UserModel.Rewrite(old(db.users), principal.id,
                                       UserModel.ProfileData(body.username, body.fullName, body.address))
      && (res.payload.None? <==> principal.id !in UserIds(old(db.users)))
  {
    var r := UserModel.Update(db, principal.id, UserModel.ProfileData(body.username, body.fullName, body.address));
    if r.Err? {
      return Failure(500, "Error updating profile.");
    }
    res := Success(200, Some("Profile updated successfully"), r.value);
  }
}
