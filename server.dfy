/**
 * The routes of server.py over an in-memory model of the database and of
 * one client's session. Each route is a method; the HTTP exchange becomes
 * its parameters (the form fields) and its `Response` (the page rendered or
 * the redirect sent). The methods are specified by the table functions of
 * modules Accounts and Reservations.
 */
module Server {
  import opened Common
  import opened Text
  import opened Accounts
  import opened Reservations

  /** What a route sends back. */
  datatype Response =
    | RedirectToLogin
    | RedirectToHome
    | RedirectToAdmin
    | RedirectToSuccess(resId: nat)
    | InvalidCredentials                      // "Invalid username or password"
    | UsernameTaken                           // "Username already taken"
    | SlotFull(name: string)                  // schedule.html with the "only 3 reservations" error
    | HomePage(name: string, upcoming: seq<Reservation>)
    | AdminPage(reservations: seq<Reservation>)
    | AccessDenied                            // "Access denied"
    | SuccessPage(name: string, reservation: Option<Reservation>)
    | ServerError                             // an exception escapes the route: HTTP 500

  class App {
    /** The `User` table. */
    var users: seq<User>
    /** The `Reservation` table. */
    var reservations: seq<Reservation>
    /** The client's `session["user_id"]`, absent when nobody is logged in. */
    var session: Option<nat>
    /** `hash_password`. */
    const hash: string -> string

    /**
     * The database's invariants (ids, unique usernames, reservation owners
     * are users), the capacity invariant, and a session that names a user.
     */
    ghost predicate Valid()
      reads this
    {
      && Accounts.WellFormed(users)
      && WellNumbered(reservations)
      && WithinCapacity(reservations)
      && (forall i :: 0 <= i < |reservations| ==> 1 <= reservations[i].userId <= |users|)
      && (session.Some? ==> 1 <= session.value <= |users|)
    }

    /**
     * The app on a fresh database once `create_tables` has run: Flask calls
     * it before the first request, so every route sees the seeded
     * administrator. The client starts without a session.
     */
    constructor (h: string -> string)
      ensures Valid()
      ensures hash == h && users == SeedAdmin([], h) && reservations == [] && session == None
    {
      hash := h;
      users := [];
      reservations := [];
      session := None;
      new;
      CreateTables();
    }

    /** `User.query.get(session["user_id"])`: the logged-in user. */
    function CurrentUser(): (u: User)
      reads this
      requires Valid() && session.Some?
      ensures Accounts.GetById(users, session.value) == Some(u)
    {
      users[session.value - 1]
    }

    /**
     * `create_tables`: seed the default administrator unless a user named
     * "admin" exists. The constructor runs it; on a fresh database it is a
     * no-op whenever it runs again.
     */
    method CreateTables()
      requires Valid()
      modifies this`users
      ensures Valid()
      ensures users == SeedAdmin(old(users), hash)
    {
      users := SeedAdmin(users, hash);
    }

    /** The POST branch of `signup`. */
    method Signup(username: string, name: string, password: string) returns (resp: Response)
      requires Valid()
      modifies this`users
      ensures Valid()
      ensures match Register(old(users), Strip(username), Strip(name), hash(password))
        case None => resp == UsernameTaken && users == old(users)
        case Some(us) => resp == RedirectToLogin && users == us
      ensures resp == RedirectToLogin ==> Authenticate(users, Strip(username), password, hash).Some?
    {
      var u := Strip(username);
      var r := Register(users, u, Strip(name), hash(password));
      match r {
        case None =>
          resp := UsernameTaken;
        case Some(us) =>
          RegisterThenAuthenticate(users, u, Strip(name), password, hash);
          users := us;
          resp := RedirectToLogin;
      }
    }

    /** The POST branch of `login`: on success the session names the user; on failure it is left as it was. */
    method Login(username: string, password: string) returns (resp: Response)
      requires Valid()
      modifies this`session
      ensures Valid()
      ensures match Authenticate(users, Strip(username), password, hash)
        case None => resp == InvalidCredentials && session == old(session)
        case Some(u) => session == Some(u.id) && resp == (if u.isAdmin then RedirectToAdmin else RedirectToHome)
    {
      match Authenticate(users, Strip(username), password, hash) {
        case None =>
          resp := InvalidCredentials;
        case Some(u) =>
          session := Some(u.id);
          resp := if u.isAdmin then RedirectToAdmin else RedirectToHome;
      }
    }

    /** `logout`: `session.pop("user_id", None)`, which is no error when nobody is logged in. */
    method Logout() returns (resp: Response)
      requires Valid()
      modifies this`session
      ensures Valid()
      ensures session == None && resp == RedirectToLogin
    {
      session := None;
      resp := RedirectToLogin;
    }

    /** `home`: the logged-in regular user's reservations, ordered by slot. */
    method Home() returns (resp: Response)
      requires Valid()
      ensures session.None? ==> resp == RedirectToLogin
      ensures session.Some? && CurrentUser().isAdmin ==> resp == RedirectToAdmin
      ensures session.Some? && !CurrentUser().isAdmin ==>
        && resp.HomePage? && resp.name == CurrentUser().name
        && SortedBySlot(resp.upcoming)
        && forall x :: multiset(resp.upcoming)[x] == if x.userId == session.value then multiset(reservations)[x] else 0
    {
      if session.None? {
        return RedirectToLogin;
      }
      var user := CurrentUser();
      if user.isAdmin {
        return RedirectToAdmin;
      }
      resp := HomePage(user.name, UserListing(reservations, user.id));
    }

    /**
     * The POST branch of `schedule`: admit the booking unless its slot already
     * holds `Capacity` reservations. A party size outside the INTEGER range
     * makes the commit fail, which ends the request in an error with nothing
     * stored.
     */
    method Schedule(date: string, time: string, partySize: int, notes: string) returns (resp: Response)
      requires Valid()
      modifies this`reservations
      ensures Valid()
      ensures session.None? ==> resp == RedirectToLogin && reservations == old(reservations)
      ensures session.Some? ==>
        match Admit(old(reservations), Booking(session.value, date, time, partySize, notes))
        case None => resp == SlotFull(CurrentUser().name) && reservations == old(reservations)
        case Some(r) =>
          if Storable(Booking(session.value, date, time, partySize, notes))
          then resp == RedirectToSuccess(r.id) && reservations == old(reservations) + [r]
          else resp == ServerError && reservations == old(reservations)
    {
      if session.None? {
        return RedirectToLogin;
      }
      var user := CurrentUser();
      var b := Booking(user.id, date, time, partySize, notes);
      if MaxReservationsReached(reservations, date, time) {
        return SlotFull(user.name);
      }
      var r := Admit(reservations, b).value;
      if !Storable(b) {
        return ServerError;
      }
      BookPreservesCapacity(reservations, b);
      reservations := reservations + [r];
      resp := RedirectToSuccess(r.id);
    }

    /** `schedule_success`: the reservation with the given id, if any, whoever owns it. */
    method ScheduleSuccess(resId: int) returns (resp: Response)
      requires Valid()
      ensures session.None? ==> resp == RedirectToLogin
      ensures session.Some? ==>
        && resp.SuccessPage? && resp.name == CurrentUser().name
        && (resp.reservation.Some? ==> resp.reservation.value in reservations && resp.reservation.value.id == resId)
        && (resp.reservation.None? ==> forall i :: 0 <= i < |reservations| ==> reservations[i].id != resId)
    {
      if session.None? {
        return RedirectToLogin;
      }
      resp := SuccessPage(CurrentUser().name, FindReservation(reservations, resId));
    }

    /** `admin_home`: every reservation ordered by slot, for administrators only. */
    method AdminHome() returns (resp: Response)
      requires Valid()
      ensures session.None? ==> resp == RedirectToLogin
      ensures session.Some? && !CurrentUser().isAdmin ==> resp == AccessDenied
      ensures session.Some? && CurrentUser().isAdmin ==>
        resp.AdminPage? && SortedBySlot(resp.reservations) && multiset(resp.reservations) == multiset(reservations)
    {
      if session.None? {
        return RedirectToLogin;
      }
      if !CurrentUser().isAdmin {
        return AccessDenied;
      }
      resp := AdminPage(AdminListing(reservations));
    }
  }
}
