# Account and session flow of a small Flask user service

This project models the account-and-session core of `act_1/app.py`. Visitors
register an account with a username, a password, a name, a birthday, an
address and an optional avatar image. They log in with username and password.
A logged-in visitor sees a home page showing their record and their age.

The model has four modules:

- `Wrappers` (`wrappers.dfy`): `Option`, standing for Python's `None`.
- `Ages` (`ages.dfy`): dates compared as (year, month, day) triples. It holds the
  module-level `age` function and the inline age of `home`, with lemmas. `today`
  is a parameter.
- `Accounts` (`accounts.dfy`): the user table as a sequence of `UserRow` values.
  - Pure functions state what each handler does: `Register`, `Login`, `HomeView`,
    `FindByUsername` (the `filter_by(...).first()` query) and `FindById` (`query.get`).
  - Lemmas state what the flow promises: error paths leave the table unchanged;
    a success appends exactly one row; usernames stay unique; a failed login looks
    the same whatever the cause; a fresh registrant can log in; a logged-in user
    sees their own record.
- `App` (`app.dfy`): the handlers run as imperative code.
  - `User` is the ORM instance. `SetPassword` assigns its hash field in place.
  - `AccountStore` holds the table, the next id, the session's `user_id` slot and
    a record of the files written to the upload folder.
  - `RegisterPost`, `LoginPost` and `Home` follow the source's steps in the
    source's order. Each is proved equal to the matching function of `Accounts`.

The library functions the code calls are the fields of `Services`, passed in
as values:

- werkzeug's `generate_password_hash` and `check_password_hash`;
- `secure_filename`;
- `strptime`.

The model relies on two stated assumptions about them:

- `HashVerifies`: a password checks against every hash made from it.
- `ParsesValidDates`: whatever the parser accepts is a real calendar date.

Randomness and clocks are arguments:

- the password salt;
- the `strftime` timestamp prefix;
- `today`.

Notes on the code as written:

- The module-level `age` (act_1/app.py:36-44) is decorated with `@property`, but
  it is not indented into `User`, so no user object has an `age` attribute. `home`
  recomputes the age inline at line 128. `Ages.Age` is the reference definition.
  `Ages.InlineAge` is proved equal to it for every birthday and every `today`.
- The code saves the uploaded image before it parses the birthday. So a bad date
  refuses the registration, but the file stays written. A design that parses the
  date first would leave nothing behind. The model follows the code:
  `Accounts.RegisterInvalidDate` reports the saved file name.
- The handler's own username check (line 78) is check-then-act. The column's
  `unique=True` constraint (line 23) re-checks at insert. When two registrations
  of one username race, the loser fails in `db.session.commit()` (line 111) with
  an `IntegrityError` that `register_post` does not catch. That request ends in a
  server error, not the "Username already exists" redirect, and its image is
  already written (line 91). The model is sequential, so the handler's check is
  the only one that can fire, and uniqueness holds as a table invariant
  (`Accounts.RegisterKeepsInvariant`).

## Model

| member | source | states |
|---|---|---|
| `Ages.Age` | act_1/app.py:36-44 | 0 without a birthday. Otherwise it is the number of completed years: the result's anniversary is not after today, and the next one is. |
| `Ages.BoolToInt` | act_1/app.py:128 | A bool used in arithmetic is 1 exactly when it is true, else 0. |
| `Ages.InlineAge` | act_1/app.py:128 | The inline expression of `home` (year difference minus a bool) equals `Age` for every birthday and every `today`. |
| `Ages.AgeIsCompletedYears` | act_1/app.py:40-44 | Any count whose anniversary is reached and whose next one is not equals `Age`, so the contract of `Age` pins it down. |
| `Ages.AgeDropsBeforeBirthday` | act_1/app.py:41-43 | The age is the year difference minus 1 exactly when (today.month, today.day) < (birthday.month, birthday.day), else the year difference. |
| `Ages.AgeNonNegative` | act_1/app.py:41-43 | A birthday that is not in the future gives an age of at least 0. |
| `Ages.AgeAroundBirthday` | act_1/app.py:41-43 | Born 2000-06-15: 23 on 2024-06-14, 24 on 2024-06-15 and on 2024-06-16. |
| `Accounts.FindByUsername` | act_1/app.py:56 | None exactly when no row has the username. Otherwise it is the first row, in insertion order, with that username. |
| `Accounts.FindById` | act_1/app.py:121 | None exactly when no row has the id. Otherwise it is a stored row with that id. |
| `Accounts.FindByUsernameFindsStored` | act_1/app.py:23 | With unique usernames, looking up a stored username returns exactly that row. |
| `Accounts.FindByIdFindsStored` | act_1/app.py:22 | With ascending ids, looking up a stored id returns exactly that row. |
| `Accounts.ImageFilename` | act_1/app.py:83-90 | No image name when `image` is absent or its filename is empty. Otherwise the name is the timestamp followed by the sanitised filename. |
| `Accounts.Register` | act_1/app.py:70-114 | `register_post` on values. The response is always a redirect. The table either stays the same or gains exactly one row at the end, with earlier rows kept, and the id counter moves by the number of rows added. A saved file is the image name the form gives, and a registration that adds a row has saved exactly that name. The full outcome per case is stated by `RegisterTakenUsername`, `RegisterInvalidDate`, `RegisterSucceeds`, `RegisterSuccessIff` and `RegisterKeepsInvariant`. |
| `Accounts.RegisterTakenUsername` | act_1/app.py:77-80 | A taken username gives a redirect to `register` with "Username already exists". Table and id counter are unchanged, and no file is saved. |
| `Accounts.RegisterInvalidDate` | act_1/app.py:82-98 | A free username with an unparsable birthday gives a redirect to `register` with "Invalid date format". The table is unchanged, but the image file is already saved. |
| `Accounts.RegisterSucceeds` | act_1/app.py:100-114 | A free username with a parsable birthday appends exactly one row. The row holds the next id, the form's fields, the parsed birthday, the image name and `hash(salt, password)`. The image file saved is the one the row names. Earlier rows are untouched, and the response redirects to `login` with the success message. |
| `Accounts.RegisterSuccessIff` | act_1/app.py:70-114 | Registration succeeds exactly when the username is free and the birthday parses. Every other outcome leaves the table and the id counter unchanged. |
| `Accounts.RegisterKeepsInvariant` | act_1/app.py:21-28 | Registration keeps usernames pairwise unique, ids ascending and below the counter, and birthdays valid dates. |
| `Accounts.Login` | act_1/app.py:52-63 | `login_post` on values. The outcome is either a redirect home or the single rejection (session unchanged, "Invalid username or password"). A redirect home means a stored row has the username, accepts the password, and its id is the new session. The converse and the indistinguishable failures are stated by `LoginSucceedsIff` and `LoginFailuresAlike`. |
| `Accounts.LoginSucceedsIff` | act_1/app.py:56-60 | Login redirects home exactly when a stored row has the username and the password checks against its hash. The session then holds that row's id. |
| `Accounts.LoginFailuresAlike` | act_1/app.py:56-63 | Login fails exactly when no row with the username accepts the password. Both failure causes give the same outcome: session unchanged, and a redirect to `login` with "Invalid username or password". |
| `Accounts.HomeView` | act_1/app.py:117-130 | `home` on values. The response is a render or a redirect to `login` with no message. A render shows a stored row whose id is the session's, with that row's completed years as its age. The converse is stated by `HomeRendersSessionUser`. |
| `Accounts.HomeRendersSessionUser` | act_1/app.py:117-130 | Home renders exactly when the session holds the id of a stored row. It shows that row and its age. Every other request redirects to `login`. |
| `Accounts.RegisterThenLogin` | act_1/app.py:101-111 | After a successful registration, logging in with the same username and password sets the session to the new id. |
| `Accounts.LoginThenHome` | act_1/app.py:117-130 | After a successful login, home renders the row with that username and its age. |
| `App.User.constructor` | act_1/app.py:101-107 | The new instance carries the form's username, name, parsed birthday, address and image name. `id == 0` and `passwordHash == ""` stand for the `None` that SQLAlchemy leaves in those attributes until `set_password` (line 108) and `commit` (line 111) fill them in. |
| `App.User.Load` | act_1/app.py:56 | The instance a query gives back for a stored row: its fields are exactly that row's. |
| `App.User.SetPassword` | act_1/app.py:30-34 | Sets the hash field to `hash(salt, password)`. Under `HashVerifies`, `check_password` then accepts the same password. |
| `App.User.CheckPassword` | act_1/app.py:33-34 | Delegates to `check(passwordHash, password)`. Under `HashVerifies` it accepts every password the stored hash was made from. |
| `App.AccountStore.constructor` | act_1/app.py:135-137 | On a fresh database, starts with an empty table, next id 1, no session and no uploads. The invariant holds. |
| `App.AccountStore.RegisterPost` | act_1/app.py:70-114 | Table, id counter and response are those of `Register`. The upload record gains the saved name, if any. The session is unchanged. The invariant is kept, including that every stored image name is in the upload record. |
| `App.AccountStore.LoginPost` | act_1/app.py:52-63 | Session and response are those of `Login`. The table is unchanged. |
| `App.AccountStore.Home` | act_1/app.py:116-130 | Computes the age with the line-128 expression. The response equals `HomeView`, which uses `Age`, and nothing changes. |

## Left out

- Flask routing, `render_template`, `redirect`/`url_for`, `flash` and the app configuration (act_1/app.py:8-13, 47-49, 65-67) are transport glue. They appear only as `Response` values (endpoint and flashed message).
- SQLAlchemy persistence and `db.create_all`/`commit` are replaced by the in-memory row sequence.
  - Two concurrent registrations of one username are not modelled, and neither is the database's unique constraint, because the model is sequential. In the source the loser of such a race fails at `commit` with an uncaught `IntegrityError`, which means a server error instead of the "Username already exists" redirect, and its image file stays written. The model has no outcome for this.
  - Ids are assigned from a counter starting at 1, as SQLite assigns row ids when nothing is ever deleted.
- Werkzeug's salted hashing is a foreign library. `hash` and `check` are opaque, and the salt is a parameter. The model cannot show that a stored hash differs from the plaintext.
- `secure_filename` is opaque. The model makes no claim that its result is free of path components.
- `strptime` is opaque (`parseDate`). The `%Y-%m-%d` format and its lenient rules are not modelled.
- `date.today()` and `datetime.now().strftime(...)` read the clock. Both are parameters.
- File contents, `file.save` and `os.makedirs` (act_1/app.py:16, 91) are I/O. Only the name of each file written is recorded, in `uploads`.
- `App.User.constructor`: the unset `id` and `password_hash` of a new `User` are `None` in the source. The model writes them as `0` and `""`. Neither value is ever stored, because the hash and the id are assigned before the row is inserted.
- Werkzeug's `FileStorage` truthiness (`if file`) is taken to be the same as a non-empty filename.
- `MAX_CONTENT_LENGTH` is enforced by Flask, not by this code.
- Missing form fields (a `KeyError` that Flask turns into a 400 answer) are not modelled.
- Column lengths (`String(80)` and the like) are not modelled, because SQLite does not enforce them.
- The session is one client's `user_id` slot. Cookie signing, expiry and logout are not modelled (logout does not exist in the source).
