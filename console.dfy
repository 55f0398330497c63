/**
 * app.py, the console sign-up tool: accounts live in a dictionary from
 * username to `{name, password}` whose password is `hash_password` of the
 * one chosen. `signup` adds to the dictionary in place; `login` only reads it.
 * Usernames are taken exactly as typed (this tool does not strip them).
 */
module Console {

  datatype Entry = Entry(name: string, password: string)

  datatype SignupResult = AlreadyTaken | Created

  /** "Welcome back, <name>!" or "Invalid username or password." */
  datatype LoginResult = Welcome(name: string) | Invalid

  /**
   * `login`: welcomes the account's owner exactly when the username is known
   * and its stored digest is the digest of the password.
   */
  function Login(users: map<string, Entry>, username: string, password: string, hash: string -> string): (r: LoginResult)
    ensures r.Welcome? <==> username in users && users[username].password == hash(password)
    ensures r.Welcome? ==> r.name == users[username].name
  {
    if username in users && users[username].password == hash(password) then Welcome(users[username].name)
    else Invalid
  }

  /** An unknown username and a wrong password give the same answer. */
  lemma LoginFailuresAlike(users: map<string, Entry>, unknown: string, p: string,
                           known: string, wrong: string, hash: string -> string)
    requires unknown !in users
    requires known in users && users[known].password != hash(wrong)
    ensures Login(users, unknown, p, hash) == Login(users, known, wrong, hash) == Invalid
  {
  }

  /** Adding an account changes no other username's login outcome. */
  lemma SignupKeepsOtherLogins(users: map<string, Entry>, username: string, e: Entry,
                               other: string, password: string, hash: string -> string)
    requires other != username
    ensures Login(users[username := e], other, password, hash) == Login(users, other, password, hash)
  {
  }

  /** The dictionary `users` that `main` passes to `signup` and `login`. */
  class UserStore {
    var users: map<string, Entry>
    /** `hash_password`. */
    const hash: string -> string

    /** The dictionary as `load_users` returned it. */
    constructor (loaded: map<string, Entry>, h: string -> string)
      ensures users == loaded && hash == h
    {
      users := loaded;
      hash := h;
    }

    /**
     * `signup`: a taken username leaves the dictionary untouched; a new one
     * gains exactly its own entry, after which `login` with the same
     * password welcomes the new account.
     */
    method Signup(username: string, fullName: string, password: string) returns (result: SignupResult)
      modifies this`users
      ensures result == AlreadyTaken <==> username in old(users)
      ensures result == AlreadyTaken ==> users == old(users)
      ensures result == Created ==> users == old(users)[username := Entry(fullName, hash(password))]
      ensures result == Created ==> Login(users, username, password, hash) == Welcome(fullName)
    {
      if username in users {
        return AlreadyTaken;
      }
      users := users[username := Entry(fullName, hash(password))];
      result := Created;
    }
  }
}
