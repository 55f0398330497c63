/**
 * The `User` table of server.py and the rules over it: `signup`'s
 * duplicate check and insert, `login`'s credential check, and the default
 * administrator `create_tables` seeds.
 *
 * The table is a sequence in insertion order; a user's `id` is its position
 * plus one. `hash` stands for `hash_password`: any deterministic function
 * from passwords to stored digests, with no other property assumed (in
 * particular not injectivity).
 */
module Accounts {
  import opened Common

  datatype User = User(id: nat, username: string, name: string, password: string, isAdmin: bool)

  /** What the table guarantees: ids 1, 2, 3, ... and the `unique=True` username column. */
  predicate WellFormed(users: seq<User>) {
    && (forall i :: 0 <= i < |users| ==> users[i].id == i + 1)
    && (forall i, j :: 0 <= i < j < |users| ==> users[i].username != users[j].username)
  }

  /** `User.query.filter_by(username=username).first()`. */
  function FindByUsername(users: seq<User>, username: string): (r: Option<User>)
    ensures r.Some? ==> r.value in users && r.value.username == username
    ensures r.None? <==> forall i :: 0 <= i < |users| ==> users[i].username != username
  {
    if users == [] then None
    else if users[0].username == username then Some(users[0])
    else FindByUsername(users[1..], username)
  }

  /** With unique usernames, looking up a user's name finds exactly that user. */
  lemma FindByUsernameUnique(users: seq<User>, i: nat)
    requires WellFormed(users) && i < |users|
    ensures FindByUsername(users, users[i].username) == Some(users[i])
  {
  }

  /** `User.query.get(id)`. */
  function GetById(users: seq<User>, id: int): (r: Option<User>)
    requires WellFormed(users)
    ensures r.Some? ==> r.value in users && r.value.id == id
    ensures r.None? ==> forall i :: 0 <= i < |users| ==> users[i].id != id
  {
    if 1 <= id <= |users| then Some(users[id - 1]) else None
  }

  /** Looking a name up after an append finds the old entry if there was one, else the new one. */
  lemma {:induction false} FindAppend(users: seq<User>, x: User, username: string)
    ensures FindByUsername(users + [x], username)
         == if FindByUsername(users, username).Some? then FindByUsername(users, username)
            else if x.username == username then Some(x) else None
  {
    if users == [] {
      assert users + [x] == [x];
    } else {
      assert (users + [x])[1..] == users[1..] + [x];
      FindAppend(users[1..], x, username);
    }
  }

  /**
   * `signup` after reading the form: `None` ("Username already taken") when
   * some user has the name, otherwise the table with one regular user
   * appended, holding the digest it was given.
   */
  function Register(users: seq<User>, username: string, name: string, digest: string): (r: Option<seq<User>>)
    ensures r.None? <==> exists i :: 0 <= i < |users| && users[i].username == username
    ensures r.Some? ==>
      && |r.value| == |users| + 1 && r.value[..|users|] == users
      && r.value[|users|] == User(|users| + 1, username, name, digest, false)
    ensures r.Some? && WellFormed(users) ==> WellFormed(r.value)
  {
    if FindByUsername(users, username).Some? then None
    else
      var us := users + [User(|users| + 1, username, name, digest, false)];
      assert us[..|users|] == users;
      Some(us)
  }

  /**
   * `login`'s check: the user with that name, provided the stored digest is
   * the digest of the supplied password; `None` for a missing user and for
   * a wrong password alike.
   */
  function Authenticate(users: seq<User>, username: string, password: string, hash: string -> string): (r: Option<User>)
    ensures r.Some? ==> r.value in users && r.value.username == username && r.value.password == hash(password)
    ensures WellFormed(users) ==>
      (r.Some? <==> exists i :: 0 <= i < |users| && users[i].username == username && users[i].password == hash(password))
  {
    match FindByUsername(users, username)
    case None => None
    case Some(u) => if u.password == hash(password) then Some(u) else None
  }

  /** The account registered by a successful sign-up logs in with the same password. */
  lemma RegisterThenAuthenticate(users: seq<User>, username: string, name: string, password: string, hash: string -> string)
    requires Register(users, username, name, hash(password)).Some?
    ensures Authenticate(Register(users, username, name, hash(password)).value, username, password, hash)
         == Some(User(|users| + 1, username, name, hash(password), false))
  {
  }

  /** A sign-up changes no other user's login outcome. */
  lemma RegisterKeepsOtherLogins(users: seq<User>, username: string, name: string, digest: string,
                                 other: string, password: string, hash: string -> string)
    requires Register(users, username, name, digest).Some? && other != username
    ensures Authenticate(Register(users, username, name, digest).value, other, password, hash)
         == Authenticate(users, other, password, hash)
  {
    var us := Register(users, username, name, digest).value;
    assert us == users + [us[|users|]];
    FindAppend(users, us[|users|], other);
  }

  const AdminUsername := "admin"
  const AdminName := "Admin"
  const AdminPassword := "admin123"

  /**
   * `create_tables`' seeding: when no user is named "admin", append an
   * administrator with the default password; otherwise leave the table as it is.
   */
  function SeedAdmin(users: seq<User>, hash: string -> string): (r: seq<User>)
    ensures (exists i :: 0 <= i < |users| && users[i].username == AdminUsername) ==> r == users
    ensures (forall i :: 0 <= i < |users| ==> users[i].username != AdminUsername) ==>
      r == users + [User(|users| + 1, AdminUsername, AdminName, hash(AdminPassword), true)]
    ensures exists i :: 0 <= i < |r| && r[i].username == AdminUsername
    ensures WellFormed(users) ==> WellFormed(r)
  {
    if FindByUsername(users, AdminUsername).Some? then users
    else
      var r := users + [User(|users| + 1, AdminUsername, AdminName, hash(AdminPassword), true)];
      assert r[|users|].username == AdminUsername;
      r
  }

  /** Seeding twice is seeding once. */
  lemma SeedAdminIdempotent(users: seq<User>, hash: string -> string)
    ensures SeedAdmin(SeedAdmin(users, hash), hash) == SeedAdmin(users, hash)
  {
  }

  /** On a table without an "admin", the seeded administrator logs in with the default password. */
  lemma SeededAdminLogsIn(users: seq<User>, hash: string -> string)
    requires forall i :: 0 <= i < |users| ==> users[i].username != AdminUsername
    ensures Authenticate(SeedAdmin(users, hash), AdminUsername, AdminPassword, hash)
         == Some(User(|users| + 1, AdminUsername, AdminName, hash(AdminPassword), true))
  {
  }
}
