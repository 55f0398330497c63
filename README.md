# Sign-up and reservation core, modelled in Dafny

This project models the core of a small sign-up and reservation app in
Dafny and proves properties of the model. The app has two parts:

- **server.py** is a Flask site. Users sign up, log in, and book a `(date, time)` slot. A slot is refused once it holds 3 reservations. Users list their own bookings, and an administrator lists all of them.
- **app.py** is a console tool. It keeps accounts in a dictionary and signs users up and logs them in.

Modules:

- `Common`: the `Option` datatype.
- `Text`: Python's `str.strip()`, which the routes apply to usernames and names. Also the text order SQLite's `ORDER BY` uses: the default BINARY collation, which orders UTF-8 text by code point.
- `Reservations`: the reservation table as a sequence. It holds the slot count behind `max_reservations_reached` and the admission rule of `schedule`, with its capacity proofs. It also holds the per-user and administrator listings: sorted by `(date, time)` and a permutation of what the query selects.
- `Accounts`: the `User` table as a sequence. It holds `signup`'s duplicate check and insert, `login`'s credential check and `create_tables`' default-administrator seeding.
- `Server`: class `App` with the user table, the reservation table and one client's `session["user_id"]` as fields. Each route is a method, specified by the functions of `Accounts` and `Reservations`. `App.Valid()` holds the capacity invariant: at most 3 reservations per `(date, time)`. Every method keeps it, and the constructor (a fresh database after `create_tables`) establishes it. So it holds after any sequence of requests handled one at a time.
- `Console`: app.py. Class `UserStore` holds the `users` dictionary that `signup` updates in place. `Login` is a pure function over it. Being a function, it cannot change `users`.

`hash_password` is a parameter `hash: string -> string` of both classes. It is any deterministic function; injectivity is not assumed. So the model claims only that a login fails when the digests differ. It does not claim that a different password always fails.

Ids are modelled as position plus one in insertion order. That is what an SQLite integer primary key gives to a table that is only ever appended to.

The model follows the code as written, including what it lacks:

- Booking is an unguarded count-then-insert. It runs without a lock or transaction.
- Passwords are unsalted digests, compared with `==`.
- There is no party-size bound, no future-date check and no future-only listing.
- The administrator role is re-read from the user table on every request. It is not a snapshot taken at login.
- `schedule_success` shows any reservation by id, whoever owns it.

## Model

| member | source | states |
|---|---|---|
| `Text.IsSpace` | server.py:56 | the characters Python's `str.isspace()` accepts, which are the ones `strip()` removes |
| `Text.Strip` | server.py:70-71 | `strip()` returns a string with no whitespace at either end (Python's `isspace` set), never longer than its input |
| `Text.StripPadding` | server.py:56 | `strip()` of a stripped string padded on either side with whitespace is that string; with `Text.StripSplits` this fixes `strip()` on all inputs, so a username typed with extra spaces finds the stored one |
| `Text.StripSplits` | server.py:56 | every string is its `strip()` with whitespace on either side |
| `Text.StripIdempotent` | server.py:56 | stripping an already-stripped username (the stored one) changes nothing |
| `Text.StrLe` | server.py:50 | code-point lexicographic order, the order SQLite's BINARY collation gives UTF-8 text |
| `Text.StrLeReflexive` | server.py:50 | every text value is at most itself in the `ORDER BY` text order |
| `Text.StrLeTotal` | server.py:50 | any two text values are comparable in the `ORDER BY` text order |
| `Text.StrLeAntisymmetric` | server.py:50 | two text values each at most the other are equal |
| `Text.StrLeTransitive` | server.py:50 | the text order is transitive |
| `Reservations.MaxReservationsReached` | server.py:36-38 | true exactly when the slot already holds 3 or more reservations |
| `Reservations.WellNumbered` | server.py:23 | reservation ids are 1, 2, 3, ... in insertion order, as the integer primary key assigns them |
| `Reservations.WithinCapacity` | server.py:36-38 | no `(date, time)` slot holds more than 3 reservations |
| `Reservations.Storable` | server.py:101-116 | a record can be committed only when its party size lies in SQLite's signed 64-bit INTEGER range |
| `Reservations.SlotCount` | server.py:37 | the count of reservations with the given date and time never exceeds the table size |
| `Reservations.SlotCountAppend` | server.py:37 | appending a record raises the count of its own slot by one and leaves every other slot's count alone |
| `Reservations.Admit` | server.py:36-38 | the booking is refused exactly when the slot already holds 3 or more reservations; otherwise the new record carries the caller's user id, date, time, party size and notes, and an id no earlier record has |
| `Reservations.Book` | server.py:101-116 | the table is unchanged exactly when the slot is full or the party size cannot be stored; otherwise exactly the admitted record is appended and every earlier record kept |
| `Reservations.BookCounts` | server.py:104-116 | a booking attempt changes only its own slot's count, by one exactly when that slot was not full and the record can be stored |
| `Reservations.BookPreservesCapacity` | server.py:104-116 | a booking attempt keeps every slot at 3 reservations or fewer |
| `Reservations.BookAll` | server.py:104-116 | a sequence of booking attempts only appends, at most one record per attempt |
| `Reservations.BookAllPreservesCapacity` | server.py:104-116 | any sequence of booking attempts handled one at a time keeps every slot at 3 or fewer |
| `Reservations.BookAllFromEmpty` | server.py:36-38 | from an empty table, no sequence of bookings ever puts more than 3 reservations in a slot |
| `Reservations.BookAllSlotCount` | server.py:104-116 | after a sequence of attempts, a slot holds its earlier count plus as many of its storable requests as fit, capped at 3 |
| `Reservations.OwnedBy` | server.py:50 | `filter_by(user_id=...)` keeps each of the user's reservations as often as it occurs and no other reservation |
| `Reservations.SlotLe` | server.py:50 | the order of `order_by(date, time)`: by date, and by time when the dates are equal |
| `Reservations.SlotLeReflexive` | server.py:50 | every reservation is at most itself by `(date, time)` |
| `Reservations.SlotLeTotal` | server.py:50 | any two reservations are comparable by `(date, time)` |
| `Reservations.SlotLeTransitive` | server.py:50 | ordering by `(date, time)` is transitive |
| `Reservations.InsertSorted` | server.py:50 | inserting into a list sorted by `(date, time)` keeps it sorted |
| `Reservations.SortBySlot` | server.py:50 | the result is sorted by date, then time, and is a permutation of the input |
| `Reservations.UserListing` | server.py:50 | the home listing is sorted by `(date, time)` and holds exactly the user's reservations |
| `Reservations.AdminListing` | server.py:140 | the admin listing is sorted by `(date, time)` and is a permutation of the whole table |
| `Reservations.UserListingMembers` | server.py:50 | a reservation is in a user's listing iff it is in the table and belongs to that user |
| `Reservations.FindReservation` | server.py:127 | `get(id)` returns the record with that id, or nothing when no record has it |
| `Accounts.FindByUsername` | server.py:58 | `.first()` returns a user with that username, and returns nothing exactly when no user has it |
| `Accounts.WellFormed` | server.py:15-17 | ids are 1, 2, 3, ... and no two users share a username |
| `Accounts.FindByUsernameUnique` | server.py:17 | with unique usernames, looking up a user's name finds exactly that user |
| `Accounts.GetById` | server.py:46 | `get(id)` returns the user with that id, or nothing when no user has it |
| `Accounts.FindAppend` | server.py:73 | lookup after an insert finds the earlier user of that name if there was one, otherwise the inserted one |
| `Accounts.Register` | server.py:73-82 | sign-up fails exactly when some user has the username; otherwise it appends exactly one user with the digest, `is_admin` false and a fresh id, keeps all earlier users, and keeps usernames unique |
| `Accounts.Authenticate` | server.py:58-59 | succeeds iff a user with that username has the digest of the supplied password, and returns that user; a missing user and a wrong password both give `None` |
| `Accounts.RegisterThenAuthenticate` | server.py:73-82 | after a successful sign-up, logging in with the same username and password returns the new regular user |
| `Accounts.RegisterKeepsOtherLogins` | server.py:73-82 | a sign-up does not change the login outcome of any other username |
| `Accounts.SeedAdmin` | server.py:148-151 | an existing "admin" leaves the table unchanged; otherwise exactly one administrator with the default password is appended; afterwards an "admin" exists and usernames stay unique |
| `Accounts.SeedAdminIdempotent` | server.py:148-151 | seeding twice gives the same table as seeding once |
| `Accounts.SeededAdminLogsIn` | server.py:149 | the seeded administrator logs in with "admin123" |
| `Server.App.Valid` | server.py:15-38 | the database invariants, the capacity invariant (at most 3 reservations per slot) and a session that names a user; every route keeps it |
| `Server.App.constructor` | server.py:144-151 | the app starts on a fresh database after `create_tables` has run: the user table is exactly the seeded administrator, there are no reservations and no session, and all the invariants hold, including capacity |
| `Server.App.CurrentUser` | server.py:97 | the session's user is the one `User.query.get` finds |
| `Server.App.CreateTables` | server.py:145-151 | the user table becomes the seeded table; the invariants are kept |
| `Server.App.Signup` | server.py:67-83 | a taken (stripped) username gives "Username already taken" with the table unchanged; otherwise the new user is stored and a redirect to login is returned, after which the same credentials authenticate |
| `Server.App.Login` | server.py:53-64 | success sets the session to the user's id and redirects by role; failure gives "Invalid username or password" and leaves the session as it was |
| `Server.App.Logout` | server.py:86-89 | afterwards there is no session, whether or not there was one |
| `Server.App.Home` | server.py:41-51 | no session redirects to login; an admin is redirected to the admin page; otherwise the page shows exactly the user's reservations, sorted by `(date, time)` |
| `Server.App.Schedule` | server.py:92-117 | no session redirects to login with no change; a full slot gives the error page with the table unchanged; a party size outside the 64-bit INTEGER range gives a server error with the table unchanged; otherwise exactly the admitted record is appended and its id returned; capacity is kept |
| `Server.App.ScheduleSuccess` | server.py:121-129 | no session redirects to login; otherwise the page shows the record with the requested id, or none when no record has it |
| `Server.App.AdminHome` | server.py:132-141 | no session redirects to login; a non-admin gets "Access denied"; an admin gets every reservation, sorted by `(date, time)` |
| `Console.Login` | app.py:46-56 | welcomes the account's owner iff the username is in `users` and its stored password equals the digest of the one given; otherwise "Invalid" |
| `Console.LoginFailuresAlike` | app.py:53-56 | an unknown username and a wrong password give the identical result |
| `Console.SignupKeepsOtherLogins` | app.py:38-41 | adding an entry does not change any other username's login outcome |
| `Console.UserStore.constructor` | app.py:60 | the store starts with the dictionary as loaded |
| `Console.UserStore.Signup` | app.py:27-43 | a taken username leaves `users` unchanged; a new one adds exactly that key with `{name, hash(password)}`, all other entries unchanged, and `Login` with the same password then welcomes it |

## Left out

- Flask routing, templates, redirects and request parsing are not modelled. Form fields become method parameters and the result becomes a `Response` value. So the model does not cover a missing form field. A missing date or time gives `None`, which counts 0 for the slot and then makes the commit fail on the `NOT NULL` columns, ending in a server error with nothing stored. A failed `int()` on the party size also ends in a server error. It also does not cover notes being absent (`None`); notes are always a string here.
- The GET branches of `login`, `signup` and `schedule` only render a form and change nothing, so they are not modelled.
- SQLAlchemy/SQLite persistence and commits, and app.py's JSON `load_users`/`save_users`, are not modelled. The tables and the dictionary are in-memory fields. The one commit failure a request with every form field present can cause is modelled: a party size outside SQLite's 64-bit INTEGER range makes `schedule` fail with a server error and store nothing. `UserStore`'s constructor takes the loaded dictionary as a parameter.
- SHA-256 is not modelled. `hash_password` is a function parameter.
- Concurrency is not modelled. Requests are handled one at a time. The unguarded count-then-insert in `schedule` can overfill a slot under concurrent requests, and nothing proved here holds in that setting.
- `created_at` timestamps and the `os.environ` port lookup are not modelled. The port lookup also uses a module that server.py never imports.
- app.py's console I/O (`input`, `getpass`, `print`) and the `main` menu loop are not modelled. The prompts become parameters and the printed messages become result values.
- The Flask session is modelled for one client, holding only `user_id`. Cookie signing and the secret key are not modelled.
- Server.App.constructor: only a fresh database is modelled. Starting on an `app.db` left by an earlier run is not, because its tables need not satisfy the capacity invariant. `create_tables` is forced to run before any route, as `@app.before_first_request` does.
- Server.App.Valid: a session naming no existing user is excluded by the invariant. That can happen with a cookie left from an earlier database. The source would then fail on `user.is_admin`, `user.id` or `user.name`.
- Text.IsSpace: only the whitespace characters of Python's `str.isspace()` are modelled. This matches `strip()` with no arguments. Unicode handling beyond code points is not modelled.
- Reservations.SortBySlot: the model sorts stably, but the contract promises only what the SQL promises: sorted by `(date, time)` and a permutation. The order of reservations in the same slot is unspecified.
- Party-size bounds, future-date checks, salting and constant-time comparison are not modelled. The code has none of them.
