/**
 * The handlers of act_1/app.py as they run: an ORM `User` object whose
 * password hash is assigned in place, and an account store holding the user
 * table, the next id, the session slot and the record of uploaded files.
 * Each handler is proved to do what the functions of `Accounts` say.
 */
module App {
  import opened Wrappers
  import opened Ages
  import opened Accounts

  /** The SQLAlchemy `User` instance (act_1/app.py:21-34). */
  class User {
    var id: nat
    var username: string
    var passwordHash: string
    var name: string
    var birthday: Date
    var address: string
    var imageFilename: Option<string>

    /** `User(username=..., ...)`: no id and no password hash until the row is hashed and stored. */
    constructor (username: string, name: string, birthday: Date, address: string, imageFilename: Option<string>)
      ensures this.username == username && this.name == name && this.birthday == birthday
      ensures this.address == address && this.imageFilename == imageFilename
      ensures id == 0 && passwordHash == ""
    {
      this.id := 0;
      this.username := username;
      this.passwordHash := "";
      this.name := name;
      this.birthday := birthday;
      this.address := address;
      this.imageFilename := imageFilename;
    }

    /** The instance a query returns for a stored row. */
    constructor Load(row: UserRow)
      ensures Row() == row
    {
      id := row.id;
      username := row.username;
      passwordHash := row.passwordHash;
      name := row.name;
      birthday := row.birthday;
      address := row.address;
      imageFilename := row.imageFilename;
    }

    /** The row this instance is written as. */
    function Row(): UserRow
      reads this
    {
      UserRow(id, username, passwordHash, name, birthday, address, imageFilename)
    }

    /** `set_password`: store a fresh salted hash; the same password then checks. */
    method SetPassword(svc: Services, salt: string, password: string)
      modifies this`passwordHash
      ensures passwordHash == svc.hash(salt, password)
      ensures HashVerifies(svc) ==> CheckPassword(svc, password)
    {
      passwordHash := svc.hash(salt, password);
    }

    /** `check_password`: delegate to werkzeug's check against the stored hash. */
    function CheckPassword(svc: Services, password: string): (ok: bool)
      reads this
      ensures HashVerifies(svc) && (exists salt :: passwordHash == svc.hash(salt, password)) ==> ok
    {
      svc.check(passwordHash, password)
    }
  }

  /** The user table, the id counter, the session's `user_id` slot and the files written to the upload folder. */
  class AccountStore {
    const svc: Services
    var rows: seq<UserRow>
    var nextId: nat
    var session: Option<nat>
    var uploads: seq<string>

    ghost predicate Valid()
      reads this
    {
      && TableInvariant(rows, nextId)
      && ParsesValidDates(svc)
      // every stored image name was written to the upload folder
      && (forall i :: 0 <= i < |rows| && rows[i].imageFilename.Some? ==> rows[i].imageFilename.value in uploads)
    }

    /** `db.create_all()` on an empty database, with no one logged in. */
    constructor (svc: Services)
      requires ParsesValidDates(svc)
      ensures Valid()
      ensures this.svc == svc && rows == [] && nextId == 1 && session == None && uploads == []
    {
      this.svc := svc;
      rows := [];
      nextId := 1;
      session := None;
      uploads := [];
    }

    /**
     * `register_post` (act_1/app.py:70-114), with the password salt and the
     * `strftime` timestamp as arguments.  The table, the id counter, the
     * response and the saved file are those of `Register`; the session is untouched.
     */
    method RegisterPost(form: RegistrationForm, salt: string, timestamp: string) returns (response: Response)
      requires Valid()
      modifies this
      ensures Valid()
      ensures var out := Register(old(rows), old(nextId), form, svc, salt, timestamp);
              && rows == out.rows && nextId == out.nextId && response == out.response
              && uploads == old(uploads) + (if out.saved.Some? then [out.saved.value] else [])
      ensures session == old(session)
    {
      RegisterKeepsInvariant(rows, nextId, form, svc, salt, timestamp);

      if FindByUsername(rows, form.username).Some? {
        response := Redirect(RegisterPage, Some(UsernameTakenMessage));
        return;
      }

      var imageFilename: Option<string> := None;
      if form.image.Some? {
        var file := form.image.value;
        if file.filename != "" {
          var filename := svc.secureFilename(file.filename);
          imageFilename := Some(timestamp + filename);
          uploads := uploads + [imageFilename.value];
        }
      }

      var birthday := svc.parseDate(form.birthday);
      if birthday.None? {
        response := Redirect(RegisterPage, Some(InvalidDateMessage));
        return;
      }

      var user := new User(form.username, form.name, birthday.value, form.address, imageFilename);
      user.SetPassword(svc, salt, form.password);

      // db.session.add(user); db.session.commit(): the row gets the next id.
      user.id := nextId;
      rows := rows + [user.Row()];
      nextId := nextId + 1;

      response := Redirect(LoginPage, Some(RegisteredMessage));
    }

    /**
     * `login_post` (act_1/app.py:52-63): the session and the response are
     * those of `Login`; nothing else changes.
     */
    method LoginPost(username: string, password: string) returns (response: Response)
      requires Valid()
      modifies this`session
      ensures Valid()
      ensures var out := Login(rows, old(session), username, password, svc);
              session == out.session && response == out.response
    {
      var found := FindByUsername(rows, username);
      if found.Some? {
        var user := new User.Load(found.value);
        if user.CheckPassword(svc, password) {
          session := Some(user.id);
          response := Redirect(HomePage, None);
          return;
        }
      }
      response := LoginRejected;
    }

    /**
     * `home` (act_1/app.py:117-130): computes the age with the inline
     * expression of line 128 and answers as `HomeView` does, changing nothing.
     */
    method Home(today: Date) returns (response: Response)
      ensures response == HomeView(rows, session, today)
    {
      if session.None? {
        return Redirect(LoginPage, None);
      }
      var user := FindById(rows, session.value);
      if user.None? {
        return Redirect(LoginPage, None);
      }
      var birthday := user.value.birthday;
      var age := InlineAge(today, birthday);
      response := Render(user.value, age);
    }
  }
}
