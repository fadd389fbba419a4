/** The user store (`backend/models/User.js`). The bcrypt digest of a new
    password and the bcrypt comparison are foreign code: they enter as the
    function parameters `hash` and `verify`. */
module UserModel {
  import opened Sql
  import opened Schema

  /** `userData` of `User.create`: the password is the plaintext. */
  datatype NewUser = NewUser(
    username: string, email: string, password: string,
    fullName: Option<string>, address: Option<string>)

  /** `userData` of `User.update`: the only columns it writes. */
  datatype ProfileData = ProfileData(
    username: string, fullName: Option<string>, address: Option<string>)

  /** A user row without its `password` column, the projection
      `id, username, email, full_name, address, created_at`. The type has no
      place for the digest, so no value of it can carry one. */
  datatype UserView = UserView(
    id: int, username: string, email: string,
    fullName: Option<string>, address: Option<string>, createdAt: int)

  function View(u: User): UserView {
    UserView(u.id, u.username, u.email, u.fullName, u.address, u.createdAt)
  }

  function ViewCreated(v: UserView): int { v.createdAt }

  predicate EmailTaken(users: seq<User>, email: string) {
    exists k :: 0 <= k < |users| && users[k].email == email
  }

  /** Some user other than `id` already has the username. */
  predicate UsernameTaken(users: seq<User>, username: string, id: int) {
    exists k :: 0 <= k < |users| && users[k].username == username && users[k].id != id
  }

  /** `SELECT * FROM users WHERE email = $1`: the full row, stored digest
      included, or nothing. */
  function FindByEmail(users: seq<User>, email: string): (r: Option<User>)
    ensures r.Some? ==> r.value in users && r.value.email == email
    ensures r.None? <==> !EmailTaken(users, email)
  {
    if users == [] then None
    else if users[0].email == email then Some(users[0])
    else
      var r := FindByEmail(users[1..], email);
      assert EmailTaken(users, email) ==> EmailTaken(users[1..], email) by {
        if EmailTaken(users, email) {
          var k :| 0 <= k < |users| && users[k].email == email;
          assert users[1..][k - 1].email == email;
        }
      }
      r
  }

  /** With unique emails, the lookup by email returns the one row. */
  lemma FindByEmailUnique(users: seq<User>, i: int)
    requires UniqueLogins(users) && 0 <= i < |users|
    ensures FindByEmail(users, users[i].email) == Some(users[i])
  {
    var r := FindByEmail(users, users[i].email);
    var j :| 0 <= j < |users| && users[j] == r.value;
    assert i == j;
  }

  function FindRow(users: seq<User>, id: int): (r: Option<User>)
    ensures r.Some? ==> r.value in users && r.value.id == id
    ensures r.None? <==> id !in UserIds(users)
  {
    if users == [] then None
    else if users[0].id == id then Some(users[0])
    else
      assert forall u :: u in users ==> u == users[0] || u in users[1..];
      FindRow(users[1..], id)
  }

  /** `SELECT id, username, email, full_name, address, created_at FROM users
      WHERE id = $1`. */
  function FindById(users: seq<User>, id: int): (r: Option<UserView>)
    ensures r.None? <==> id !in UserIds(users)
    ensures r.Some? ==> r.value.id == id && exists u :: u in users && View(u) == r.value
  {
    match FindRow(users, id)
    case Some(u) => Some(View(u))
    case None => None
  }

  function Views(users: seq<User>): (r: seq<UserView>)
    ensures |r| == |users|
  {
    seq(|users|, i requires 0 <= i < |users| => View(users[i]))
  }

  /** `SELECT id, username, email, full_name, address, created_at FROM users
      ORDER BY created_at DESC`. */
  function FindAll(users: seq<User>): seq<UserView> {
    Reverse(Views(users))
  }

  /** Every user is listed once, password-free, newest first. */
  lemma FindAllNewestFirst(users: seq<User>)
    requires Ascending(users, UserCreated)
    ensures Descending(FindAll(users), ViewCreated)
    ensures forall u :: u in users ==> View(u) in FindAll(users)
    ensures forall v :: v in FindAll(users) ==> exists u :: u in users && View(u) == v
  {
    var vs := Views(users);
    assert Ascending(vs, ViewCreated);
    ReverseOfAscending(vs, ViewCreated);
    forall u | u in users ensures View(u) in vs {
      var i :| 0 <= i < |users| && users[i] == u;
      assert vs[i] == View(u);
    }
    forall v | v in vs ensures exists u :: u in users && View(u) == v {
      var i :| 0 <= i < |vs| && vs[i] == v;
      assert users[i] in users;
    }
  }

  /** `User.create(userData)`: the row stores `hash(password)` (bcrypt with
      cost 10 and a fresh salt), and what comes back is the password-free
      projection. A second user with the same email or username violates a
      UNIQUE constraint; the serial id is consumed either way. */
  method Create(db: Db, data: NewUser, hash: string -> string) returns (r: Result<UserView>)
    requires db.Valid()
    modifies db`users, db`nextUserId, db`clock
    ensures db.Valid()
    ensures r.Err? <==> EmailTaken(old(db.users), data.email) ||
                        UsernameTaken(old(db.users), data.username, old(db.nextUserId))
    ensures r.Err? ==> r.error == UniqueViolation && db.users == old(db.users)
    ensures r.Ok? ==>
      var u := User(old(db.nextUserId), data.username, data.email, hash(data.password),
                    data.fullName, data.address, old(db.clock));
      db.users == old(db.users) + [u] && r.value == View(u)
  {
    var u := User(db.nextUserId, data.username, data.email, hash(data.password),
                  data.fullName, data.address, db.clock);
    db.nextUserId := db.nextUserId + 1;
    if EmailTaken(db.users, data.email) || UsernameTaken(db.users, data.username, u.id) {
      return Err(UniqueViolation);
    }
    AppendKeyed(db.users, u, UserId, u.id);
    AppendTimed(db.users, u, UserCreated, db.clock);
    TimedLater(db.products, ProductCreated, db.clock, db.clock + 1);
    TimedLater(db.purchases, PurchaseCreated, db.clock, db.clock + 1);
    assert UserIds(db.users) <= UserIds(db.users + [u]);
    db.users := db.users + [u];
    db.clock := db.clock + 1;
    r := Ok(View(u));
  }

  /** The table after `UPDATE users SET username = $1, full_name = $2,
      address = $3 WHERE id = $4`. */
  function Rewrite(users: seq<User>, id: int, data: ProfileData): (r: seq<User>)
    ensures |r| == |users|
  {
    seq(|users|, i requires 0 <= i < |users| =>
      if users[i].id == id
      then users[i].(username := data.username, fullName := data.fullName, address := data.address)
      else users[i])
  }

  /** A profile update keeps ids, their order and the timestamps. */
  lemma RewriteKeepsKeys(users: seq<User>, id: int, data: ProfileData, next: int, clock: int)
    requires Keyed(users, UserId, next) && Timed(users, UserCreated, clock)
    ensures Keyed(Rewrite(users, id, data), UserId, next)
    ensures Timed(Rewrite(users, id, data), UserCreated, clock)
    ensures UserIds(Rewrite(users, id, data)) == UserIds(users)
  {
    var r := Rewrite(users, id, data);
    assert forall i :: 0 <= i < |r| ==> r[i].id == users[i].id && r[i].createdAt == users[i].createdAt;
    forall x | x in UserIds(users) ensures x in UserIds(r) {
      var u :| u in users && u.id == x;
      var i :| 0 <= i < |users| && users[i] == u;
      assert r[i].id == x;
    }
    forall x | x in UserIds(r) ensures x in UserIds(users) {
      var u :| u in r && u.id == x;
      var i :| 0 <= i < |r| && r[i] == u;
      assert users[i].id == x;
    }
  }

  /** A profile update keeps emails and usernames unique unless it takes
      another user's username. */
  lemma RewriteKeepsLogins(users: seq<User>, id: int, data: ProfileData, next: int)
    requires Keyed(users, UserId, next) && UniqueLogins(users) && !UsernameTaken(users, data.username, id)
    ensures UniqueLogins(Rewrite(users, id, data))
  {
    var r := Rewrite(users, id, data);
    forall i, j | 0 <= i < j < |r|
      ensures r[i].email != r[j].email && r[i].username != r[j].username
    {
      if users[i].id == id { assert users[j].id != id; }
    }
  }

  /** Rewriting a profile keeps every constraint the tables are assumed to
      have. */
  lemma RewriteConsistent(products: seq<Product>, users: seq<User>, purchases: seq<Purchase>,
                          items: seq<PurchaseItem>, np: int, nu: int, npu: int, ni: int, clock: int,
                          id: int, data: ProfileData)
    requires Consistent(products, users, purchases, items, np, nu, npu, ni, clock)
    requires !UsernameTaken(users, data.username, id)
    ensures Consistent(products, Rewrite(users, id, data), purchases, items, np, nu, npu, ni, clock)
  {
    RewriteKeepsKeys(users, id, data, nu, clock);
    RewriteKeepsLogins(users, id, data, nu);
  }

  /** A profile update never touches what login reads: every email still
      finds a row with the same id and the same stored digest, and the
      updated user reads back with the new username, full name and address. */
  lemma UpdateKeepsCredentials(users: seq<User>, id: int, data: ProfileData, email: string)
    ensures FindByEmail(Rewrite(users, id, data), email).Some? == FindByEmail(users, email).Some?
    ensures FindByEmail(users, email).Some? ==>
      var before := FindByEmail(users, email).value;
      var after := FindByEmail(Rewrite(users, id, data), email).value;
      after.id == before.id && after.password == before.password
    ensures FindRow(users, id).Some? ==>
      FindRow(Rewrite(users, id, data), id) ==
        Some(FindRow(users, id).value.(username := data.username, fullName := data.fullName,
                                       address := data.address))
  {
    RewriteFind(users, id, data, email);
  }

  lemma {:induction false} RewriteFind(users: seq<User>, id: int, data: ProfileData, email: string)
    ensures FindByEmail(Rewrite(users, id, data), email) ==
      match FindByEmail(users, email)
      case Some(u) => Some(if u.id == id
                           then u.(username := data.username, fullName := data.fullName,
                                   address := data.address)
                           else u)
      case None => None
    ensures FindRow(Rewrite(users, id, data), id) ==
      match FindRow(users, id)
      case Some(u) => Some(u.(username := data.username, fullName := data.fullName,
                              address := data.address))
      case None => None
  {
    if users != [] {
      RewriteFind(users[1..], id, data, email);
      assert Rewrite(users, id, data)[1..] == Rewrite(users[1..], id, data);
    }
  }

  /** `User.update(id, userData)`: only username, full name and address
      change; a missing id returns nothing; taking another user's username
      violates the UNIQUE constraint and changes nothing. */
  method Update(db: Db, id: int, data: ProfileData) returns (r: Result<Option<UserView>>)
    requires db.Valid()
    modifies db`users
    ensures db.Valid()
    ensures r.Err? <==> id in UserIds(old(db.users)) && UsernameTaken(old(db.users), data.username, id)
    ensures r.Err? ==> r.error == UniqueViolation && db.users == old(db.users)
    ensures r.Ok? ==> db.users == Rewrite(old(db.users), id, data)
    ensures r == Ok(None) <==> id !in UserIds(old(db.users))
    ensures r.Ok? && r.value.Some? ==>
      var before := FindRow(old(db.users), id).value;
      r.value.value == UserView(id, data.username, before.email, data.fullName, data.address,
                                before.createdAt)
  {
    var found := FindRow(db.users, id);
    if found.Some? && UsernameTaken(db.users, data.username, id) {
      return Err(UniqueViolation);
    }
    if found.None? {
      assert forall i :: 0 <= i < |db.users| ==> db.users[i].id != id;
      assert Rewrite(db.users, id, data) == db.users;
      return Ok(None);
    }
    RewriteConsistent(db.products, db.users, db.purchases, db.purchaseItems, db.nextProductId,
                      db.nextUserId, db.nextPurchaseId, db.nextItemId, db.clock, id, data);
    RewriteFind(db.users, id, data, "");
    db.users := Rewrite(db.users, id, data);
    var u := found.value;
    r := Ok(Some(UserView(id, data.username, u.email, data.fullName, data.address, u.createdAt)));
  }

  /** Some purchase still belongs to the user. */
  predicate HasPurchases(purchases: seq<Purchase>, id: int) {
    exists k :: 0 <= k < |purchases| && purchases[k].userId == id
  }

  function Without(users: seq<User>, id: int): seq<User> {
    Where(users, (u: User) => u.id != id)
  }

  lemma WithoutKeepsInvariants(users: seq<User>, purchases: seq<Purchase>, id: int, next: int, clock: int)
    requires Keyed(users, UserId, next) && Timed(users, UserCreated, clock) && UniqueLogins(users)
    requires forall p :: p in purchases ==> p.userId in UserIds(users)
    requires !HasPurchases(purchases, id)
    ensures Keyed(Without(users, id), UserId, next)
    ensures Timed(Without(users, id), UserCreated, clock)
    ensures UniqueLogins(Without(users, id))
    ensures forall p :: p in purchases ==> p.userId in UserIds(Without(users, id))
  {
    var rest := Without(users, id);
    WhereKeyed(users, (u: User) => u.id != id, UserId, next);
    WhereTimed(users, (u: User) => u.id != id, UserCreated, clock);
    WhereAscending(users, (u: User) => u.id != id, UserId);
    forall i, j | 0 <= i < j < |rest|
      ensures rest[i].email != rest[j].email && rest[i].username != rest[j].username
    {
      var a :| 0 <= a < |users| && users[a] == rest[i];
      var b :| 0 <= b < |users| && users[b] == rest[j];
      assert a != b;
    }
    forall p | p in purchases ensures p.userId in UserIds(rest) {
      var u :| u in users && u.id == p.userId;
      var i :| 0 <= i < |users| && users[i] == u;
      var k :| 0 <= k < |purchases| && purchases[k] == p;
    }
  }

  /** Delete then read back: the user is gone and every other user reads as
      before. */
  lemma {:induction false} DeleteOnlyTarget(users: seq<User>, id: int, other: int)
    requires other != id
    ensures FindById(Without(users, id), id).None?
    ensures FindById(Without(users, id), other) == FindById(users, other)
  {
    if users != [] {
      DeleteOnlyTarget(users[1..], id, other);
      var w := Without(users, id);
      if users[0].id == id {
        assert w == Without(users[1..], id);
      } else {
        assert w == [users[0]] + Without(users[1..], id);
        assert w[0] == users[0] && w[1..] == Without(users[1..], id);
      }
    }
  }

  /** `DELETE FROM users WHERE id = $1 RETURNING id`. The foreign key from
      `purchases` is taken to have no ON DELETE action, so a user with
      purchases cannot be deleted. */
  method Delete(db: Db, id: int) returns (r: Result<Option<int>>)
    requires db.Valid()
    modifies db`users
    ensures db.Valid()
    ensures r.Err? <==> id in UserIds(old(db.users)) && HasPurchases(db.purchases, id)
    ensures r.Err? ==> r.error == ForeignKeyViolation && db.users == old(db.users)
    ensures r == Ok(None) <==> id !in UserIds(old(db.users))
    ensures r == Ok(Some(id)) <==> id in UserIds(old(db.users)) && !HasPurchases(db.purchases, id)
    ensures r.Ok? ==> db.users == Without(old(db.users), id)
  {
    var exists_ := FindRow(db.users, id).Some?;
    if exists_ && HasPurchases(db.purchases, id) {
      return Err(ForeignKeyViolation);
    }
    WithoutKeepsInvariants(db.users, db.purchases, id, db.nextUserId, db.clock);
    if !exists_ {
      WhereAll(db.users, (u: User) => u.id != id);
    }
    db.users := Without(db.users, id);
    r := if exists_ then Ok(Some(id)) else Ok(None);
  }
}
