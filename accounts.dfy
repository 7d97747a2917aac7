/**
 * The account-and-session flow of act_1/app.py stated on values: the user
 * table as a sequence of rows, and what registration, login and the home
 * page do to it, as pure functions.  The class in app.dfy runs the same
 * steps imperatively and is proved equal to these functions; the lemmas here
 * state what the flow promises.
 *
 * The library calls the code makes (werkzeug's password hashing,
 * `secure_filename`, `strptime`) are not implemented: they are values of
 * `Services`, and what the model relies on about them is spelled out as the
 * predicates `HashVerifies` and `ParsesValidDates`.
 */
module Accounts {
  import opened Wrappers
  import opened Ages

  /** One row of the `user` table (act_1/app.py:21-28). */
  datatype UserRow = UserRow(
    id: nat,
    username: string,
    passwordHash: string,
    name: string,
    birthday: Date,
    address: string,
    imageFilename: Option<string>)

  /**
   * The foreign functions the flow calls.
   *  - hash(salt, password): `generate_password_hash`; its random salt is an argument;
   *  - check(passwordHash, password): `check_password_hash`;
   *  - secureFilename: werkzeug's `secure_filename`;
   *  - parseDate: `datetime.strptime(text, '%Y-%m-%d').date()`, None for a ValueError.
   */
  datatype Services = Services(
    hash: (string, string) -> string,
    check: (string, string) -> bool,
    secureFilename: string -> string,
    parseDate: string -> Option<Date>)

  /** What the model assumes of werkzeug: a password verifies against every hash made from it. */
  ghost predicate HashVerifies(svc: Services) {
    forall salt, password :: svc.check(svc.hash(salt, password), password)
  }

  /** What the model assumes of `strptime`: whatever it accepts is a real calendar date. */
  ghost predicate ParsesValidDates(svc: Services) {
    forall text :: svc.parseDate(text).Some? ==> ValidDate(svc.parseDate(text).value)
  }

  /** An uploaded file; only its client-side name matters here (the bytes are written, not read). */
  datatype Upload = Upload(filename: string)

  /** The fields of the registration form, and the `image` entry of `request.files` if there is one. */
  datatype RegistrationForm = RegistrationForm(
    username: string,
    password: string,
    name: string,
    birthday: string,
    address: string,
    image: Option<Upload>)

  /** The endpoints that `url_for` names. */
  datatype Endpoint = LoginPage | RegisterPage | HomePage

  /** What a handler hands back to Flask: a redirect with an optional flashed message, or the home page. */
  datatype Response =
    | Redirect(target: Endpoint, flash: Option<string>)
    | Render(user: UserRow, age: int)

  const UsernameTakenMessage := "Username already exists"
  const InvalidDateMessage := "Invalid date format"
  const RegisteredMessage := "Registration successful! Please login."
  const InvalidCredentialsMessage := "Invalid username or password"

  /** The one answer to every failed login, whatever the reason. */
  const LoginRejected := Redirect(LoginPage, Some(InvalidCredentialsMessage))

  // ---------------------------------------------------------------------------
  // The user table

  /** Usernames are pairwise distinct (the `unique=True` column). */
  ghost predicate UniqueUsernames(rows: seq<UserRow>) {
    forall i, j :: 0 <= i < j < |rows| ==> rows[i].username != rows[j].username
  }

  /** Ids are assigned from 1 upwards in insertion order, all below the next id to hand out. */
  ghost predicate IdsAssigned(rows: seq<UserRow>, nextId: nat) {
    && 1 <= nextId
    && (forall i :: 0 <= i < |rows| ==> 1 <= rows[i].id < nextId)
    && (forall i, j :: 0 <= i < j < |rows| ==> rows[i].id < rows[j].id)
  }

  /** The invariant of the user table: unique usernames, unique ids, real birthdays. */
  ghost predicate TableInvariant(rows: seq<UserRow>, nextId: nat) {
    && UniqueUsernames(rows)
    && IdsAssigned(rows, nextId)
    && (forall i :: 0 <= i < |rows| ==> ValidDate(rows[i].birthday))
  }

  /**
   * `User.query.filter_by(username=username).first()`: the first row, in
   * insertion order, with that username.
   */
  function FindByUsername(rows: seq<UserRow>, username: string): (r: Option<UserRow>)
    ensures r.None? <==> forall i :: 0 <= i < |rows| ==> rows[i].username != username
    ensures r.Some? ==>
              exists i :: 0 <= i < |rows| && rows[i] == r.value && r.value.username == username
                          && forall j :: 0 <= j < i ==> rows[j].username != username
  {
    if rows == [] then None
    else if rows[0].username == username then Some(rows[0])
    else FindByUsername(rows[1..], username)
  }

  /** `User.query.get(id)`: the row with that primary key. */
  function FindById(rows: seq<UserRow>, id: nat): (r: Option<UserRow>)
    ensures r.None? <==> forall i :: 0 <= i < |rows| ==> rows[i].id != id
    ensures r.Some? ==> exists i :: 0 <= i < |rows| && rows[i] == r.value && r.value.id == id
  {
    if rows == [] then None
    else if rows[0].id == id then Some(rows[0])
    else FindById(rows[1..], id)
  }

  /** With unique usernames, looking up a stored username finds exactly that row. */
  lemma FindByUsernameFindsStored(rows: seq<UserRow>, i: int)
    requires UniqueUsernames(rows)
    requires 0 <= i < |rows|
    ensures FindByUsername(rows, rows[i].username) == Some(rows[i])
  {
  }

  /** With ascending ids, looking up a stored id finds exactly that row. */
  lemma FindByIdFindsStored(rows: seq<UserRow>, nextId: nat, i: int)
    requires IdsAssigned(rows, nextId)
    requires 0 <= i < |rows|
    ensures FindById(rows, rows[i].id) == Some(rows[i])
  {
  }

  // ---------------------------------------------------------------------------
  // Registration (act_1/app.py:70-114)

  /**
   * The stored image name (act_1/app.py:83-90): none without an `image` entry
   * or with an empty filename, else the timestamp prefix followed by the
   * sanitised name.
   */
  function ImageFilename(image: Option<Upload>, timestamp: string, secureFilename: string -> string): (r: Option<string>)
    ensures r.None? <==> (image.None? || image.value.filename == "")
    ensures r.Some? ==> r.value == timestamp + secureFilename(image.value.filename)
  {
    match image
    case None => None
    case Some(file) =>
      if file.filename != "" then Some(timestamp + secureFilename(file.filename)) else None
  }

  /** The table after a registration, the file written (if any) and the response. */
  datatype RegisterOutcome = RegisterOutcome(
    rows: seq<UserRow>,
    nextId: nat,
    saved: Option<string>,
    response: Response)

  /**
   * `register_post`: refuse a taken username; then name and save the image;
   * then parse the birthday and refuse a bad one (the file stays written);
   * then insert a row with a fresh id and the hashed password.
   */
  function Register(rows: seq<UserRow>, nextId: nat, form: RegistrationForm, svc: Services,
                    salt: string, timestamp: string): (out: RegisterOutcome)
    ensures out.response.Redirect?
    ensures out.rows == rows || (|out.rows| == |rows| + 1 && out.rows[..|rows|] == rows)
    ensures out.nextId == nextId + (|out.rows| - |rows|)
    ensures out.saved.Some? ==> out.saved == ImageFilename(form.image, timestamp, svc.secureFilename)
    ensures out.rows != rows ==> out.saved == ImageFilename(form.image, timestamp, svc.secureFilename)
  {
    if FindByUsername(rows, form.username).Some? then
      RegisterOutcome(rows, nextId, None, Redirect(RegisterPage, Some(UsernameTakenMessage)))
    else
      var image := ImageFilename(form.image, timestamp, svc.secureFilename);
      match svc.parseDate(form.birthday)
      case None =>
        RegisterOutcome(rows, nextId, image, Redirect(RegisterPage, Some(InvalidDateMessage)))
      case Some(birthday) =>
        var row := UserRow(nextId, form.username, svc.hash(salt, form.password),
                           form.name, birthday, form.address, image);
        RegisterOutcome(rows + [row], nextId + 1, image, Redirect(LoginPage, Some(RegisteredMessage)))
  }

  /** A taken username: redirect back with the message; nothing stored, nothing saved. */
  lemma RegisterTakenUsername(rows: seq<UserRow>, nextId: nat, form: RegistrationForm, svc: Services,
                              salt: string, timestamp: string, i: int)
    requires 0 <= i < |rows| && rows[i].username == form.username
    ensures Register(rows, nextId, form, svc, salt, timestamp)
            == RegisterOutcome(rows, nextId, None, Redirect(RegisterPage, Some(UsernameTakenMessage)))
  {
  }

  /**
   * A free username with a birthday that does not parse: redirect back with the
   * message and the table unchanged, but the image has already been saved.
   */
  lemma RegisterInvalidDate(rows: seq<UserRow>, nextId: nat, form: RegistrationForm, svc: Services,
                            salt: string, timestamp: string)
    requires forall i :: 0 <= i < |rows| ==> rows[i].username != form.username
    requires svc.parseDate(form.birthday).None?
    ensures Register(rows, nextId, form, svc, salt, timestamp)
            == RegisterOutcome(rows, nextId, ImageFilename(form.image, timestamp, svc.secureFilename),
                               Redirect(RegisterPage, Some(InvalidDateMessage)))
  {
  }

  /**
   * A free username with a parsable birthday: exactly one row is appended,
   * carrying the form's fields, the parsed birthday, the image name and the
   * hash of the password; the earlier rows are untouched.
   */
  lemma RegisterSucceeds(rows: seq<UserRow>, nextId: nat, form: RegistrationForm, svc: Services,
                         salt: string, timestamp: string, birthday: Date)
    requires forall i :: 0 <= i < |rows| ==> rows[i].username != form.username
    requires svc.parseDate(form.birthday) == Some(birthday)
    ensures var out := Register(rows, nextId, form, svc, salt, timestamp);
            && |out.rows| == |rows| + 1
            && out.rows[..|rows|] == rows
            && out.rows[|rows|] == UserRow(nextId, form.username, svc.hash(salt, form.password), form.name,
                                           birthday, form.address, ImageFilename(form.image, timestamp, svc.secureFilename))
            && out.nextId == nextId + 1
            && out.saved == ImageFilename(form.image, timestamp, svc.secureFilename)
            && out.response == Redirect(LoginPage, Some(RegisteredMessage))
  {
  }

  /** Registration succeeds exactly when it adds a row, and only a success adds one. */
  lemma RegisterSuccessIff(rows: seq<UserRow>, nextId: nat, form: RegistrationForm, svc: Services,
                           salt: string, timestamp: string)
    ensures var out := Register(rows, nextId, form, svc, salt, timestamp);
            && (out.response == Redirect(LoginPage, Some(RegisteredMessage))
                <==> (&& (forall i :: 0 <= i < |rows| ==> rows[i].username != form.username)
                      && svc.parseDate(form.birthday).Some?))
            && (out.response != Redirect(LoginPage, Some(RegisteredMessage)) ==> out.rows == rows && out.nextId == nextId)
  {
  }

  /** Registration keeps the table invariant: in particular usernames stay pairwise unique. */
  lemma RegisterKeepsInvariant(rows: seq<UserRow>, nextId: nat, form: RegistrationForm, svc: Services,
                               salt: string, timestamp: string)
    requires TableInvariant(rows, nextId)
    requires ParsesValidDates(svc)
    ensures var out := Register(rows, nextId, form, svc, salt, timestamp);
            TableInvariant(out.rows, out.nextId)
  {
  }

  // ---------------------------------------------------------------------------
  // Login (act_1/app.py:52-63)

  /** The session after a login attempt and the response. */
  datatype LoginOutcome = LoginOutcome(session: Option<nat>, response: Response)

  /**
   * `login_post`: when a row has that username and the password checks
   * against its hash, the session holds its id and the user goes home;
   * otherwise the session is left alone and one generic message is shown.
   */
  function Login(rows: seq<UserRow>, session: Option<nat>, username: string, password: string,
                 svc: Services): (out: LoginOutcome)
    ensures out.response == Redirect(HomePage, None) || out == LoginOutcome(session, LoginRejected)
    ensures out.response == Redirect(HomePage, None) ==>
              exists i :: && 0 <= i < |rows| && rows[i].username == username && out.session == Some(rows[i].id)
                          && svc.check(rows[i].passwordHash, password)
  {
    match FindByUsername(rows, username)
    case Some(user) =>
      if svc.check(user.passwordHash, password) then LoginOutcome(Some(user.id), Redirect(HomePage, None))
      else LoginOutcome(session, LoginRejected)
    case None => LoginOutcome(session, LoginRejected)
  }

  /**
   * Login succeeds exactly when a stored row has that username and the
   * password checks against its hash, and then the session holds that row's id.
   */
  lemma LoginSucceedsIff(rows: seq<UserRow>, session: Option<nat>, username: string, password: string,
                         svc: Services)
    requires UniqueUsernames(rows)
    ensures Login(rows, session, username, password, svc).response == Redirect(HomePage, None)
            <==> exists i :: 0 <= i < |rows| && rows[i].username == username && svc.check(rows[i].passwordHash, password)
    ensures forall i :: 0 <= i < |rows| && rows[i].username == username && svc.check(rows[i].passwordHash, password)
              ==> Login(rows, session, username, password, svc) == LoginOutcome(Some(rows[i].id), Redirect(HomePage, None))
  {
  }

  /**
   * Every failed login looks the same: an unknown username and a wrong
   * password both leave the session as it was and give the same redirect.
   */
  lemma LoginFailuresAlike(rows: seq<UserRow>, session: Option<nat>, username: string, password: string,
                           svc: Services)
    requires UniqueUsernames(rows)
    ensures (forall i :: 0 <= i < |rows| && rows[i].username == username ==> !svc.check(rows[i].passwordHash, password))
            <==> Login(rows, session, username, password, svc) == LoginOutcome(session, LoginRejected)
  {
  }

  // ---------------------------------------------------------------------------
  // Home page (act_1/app.py:117-130)

  /**
   * `home`: without a session, or when its id names no row, back to login;
   * else the row with its age today.
   */
  function HomeView(rows: seq<UserRow>, session: Option<nat>, today: Date): (r: Response)
    ensures r.Render? || r == Redirect(LoginPage, None)
    ensures r.Render? ==>
              && session.Some? && r.user.id == session.value
              && (exists i :: 0 <= i < |rows| && rows[i] == r.user)
              && !Precedes(today, Anniversary(r.user.birthday, r.age))
              && Precedes(today, Anniversary(r.user.birthday, r.age + 1))
  {
    match session
    case None => Redirect(LoginPage, None)
    case Some(id) =>
      match FindById(rows, id)
      case None => Redirect(LoginPage, None)
      case Some(user) => Render(user, Age(Some(user.birthday), today))
  }

  /**
   * The home page renders exactly for a session naming a stored row, and
   * then shows that row and its age; every other request goes to login.
   */
  lemma HomeRendersSessionUser(rows: seq<UserRow>, nextId: nat, session: Option<nat>, today: Date)
    requires IdsAssigned(rows, nextId)
    ensures HomeView(rows, session, today).Render?
            <==> session.Some? && exists i :: 0 <= i < |rows| && rows[i].id == session.value
    ensures !HomeView(rows, session, today).Render? ==> HomeView(rows, session, today) == Redirect(LoginPage, None)
    ensures forall i :: 0 <= i < |rows| && session == Some(rows[i].id)
              ==> HomeView(rows, session, today) == Render(rows[i], Age(Some(rows[i].birthday), today))
  {
  }

  // ---------------------------------------------------------------------------
  // The flow end to end

  /**
   * Whoever has just registered can log in with the same username and
   * password, and the session then holds the new row's id.
   */
  lemma RegisterThenLogin(rows: seq<UserRow>, nextId: nat, form: RegistrationForm, svc: Services,
                          salt: string, timestamp: string, session: Option<nat>)
    requires UniqueUsernames(rows)
    requires HashVerifies(svc)
    requires Register(rows, nextId, form, svc, salt, timestamp).response == Redirect(LoginPage, Some(RegisteredMessage))
    ensures var out := Register(rows, nextId, form, svc, salt, timestamp);
            Login(out.rows, session, form.username, form.password, svc)
            == LoginOutcome(Some(nextId), Redirect(HomePage, None))
  {
    var out := Register(rows, nextId, form, svc, salt, timestamp);
    RegisterSuccessIff(rows, nextId, form, svc, salt, timestamp);
    var birthday := svc.parseDate(form.birthday).value;
    RegisterSucceeds(rows, nextId, form, svc, salt, timestamp, birthday);
    assert out.rows[|rows|].username == form.username;
    FindByUsernameFindsStored(out.rows, |rows|);
  }

  /** After a successful login the home page shows the logged-in user and their age. */
  lemma LoginThenHome(rows: seq<UserRow>, nextId: nat, session: Option<nat>, username: string, password: string,
                      svc: Services, today: Date)
    requires UniqueUsernames(rows)
    requires IdsAssigned(rows, nextId)
    requires Login(rows, session, username, password, svc).response == Redirect(HomePage, None)
    ensures exists i :: && 0 <= i < |rows| && rows[i].username == username
                        && HomeView(rows, Login(rows, session, username, password, svc).session, today)
                           == Render(rows[i], Age(Some(rows[i].birthday), today))
  {
  }
}
