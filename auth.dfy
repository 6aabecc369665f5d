/** Password accounts: registration (with a best-effort default folder),
    login, and the user lookup. Password hashing stays a parameter: the
    model knows only that a hash is non-empty and matches its password. The
    signed token is represented by the payload it carries. */
module Auth {
  import opened Wrappers
  import opened Seqs
  import opened Store
  import Folders

  const ErrEmailTaken: string := "User with this email already exists"
  const ErrInvalidCredentials: string := "Invalid credentials"
  const ErrUserNotFound: string := "User not found"

  /** The password library: `hash(password, salt)` and `compare(password, hashed)`.
      The salt stands for the library's own randomness. */
  datatype PasswordHasher = PasswordHasher(hash: (string, nat) -> string, compare: (string, string) -> bool)

  /** What the library guarantees: a hash is never empty and matches the
      password it was made from, whatever the salt. */
  ghost predicate Sound(h: PasswordHasher) {
    forall p: string, salt: nat :: h.hash(p, salt) != "" && h.compare(p, h.hash(p, salt))
  }

  /** A user as the services hand it out: no password, no provider ids. */
  datatype UserView = UserView(id: Id, email: string, name: string, createdAt: int)

  /** `getUserById`'s projection, which adds the last update time. */
  datatype UserProfile = UserProfile(id: Id, email: string, name: string, createdAt: int, updatedAt: int)

  /** The claims a signed token carries. */
  datatype TokenPayload = TokenPayload(userId: Id, email: string, name: string)

  /** A signed-in user and the token issued for it. */
  datatype Session = Session(user: UserView, token: TokenPayload)

  function ViewOf(u: User): UserView {
    UserView(u.id, u.email, u.name, u.createdAt)
  }

  /** The payload of `generateToken`: exactly the user's id, email and name,
      so the password, the provider ids and the timestamps never reach it. */
  function GenerateToken(v: UserView): (r: TokenPayload)
    ensures r.userId == v.id && r.email == v.email && r.name == v.name
  {
    TokenPayload(v.id, v.email, v.name)
  }

  /** Creates a password account and its default folder. A failure to create
      the folder does not fail the registration. */
  method Register(db: Db, email: string, password: string, name: string,
                  hasher: PasswordHasher, salt: nat, now: int, folderFault: bool)
    returns (r: Result<Session>)
    requires db.Valid()
    modifies db
    ensures db.Valid()
    ensures db.notes == old(db.notes) && db.tasks == old(db.tasks)
    ensures r.Err? <==> UserByEmail(old(db.users), email).Some?
    ensures r.Err? ==> r.error == ErrEmailTaken && db.users == old(db.users) && db.folders == old(db.folders)
    ensures r.Ok? ==>
      var user := User(old(db.nextId), email, Some(hasher.hash(password, salt)), name, None, None, now, now);
      && db.users == old(db.users) + [user]
      && r.value == Session(ViewOf(user), GenerateToken(ViewOf(user)))
    ensures r.Ok? && !folderFault ==>
      Folders.NamedCount(db.folders, r.value.user.id, DefaultFolderName) == 1
    // The folder table gains at most the new user's default folder, with the id after the user's.
    ensures r.Ok? ==>
      var d := NamedFolder(old(db.folders), old(db.nextId), DefaultFolderName);
      && (d.Some? || folderFault ==> db.folders == old(db.folders))
      && (d.None? && !folderFault ==>
            db.folders == old(db.folders) + [Folder(old(db.nextId) + 1, DefaultFolderName, old(db.nextId), now)])
  {
    var existing := UserByEmail(db.users, email);
    if existing.Some? {
      return Err(ErrEmailTaken);
    }
    var hashed := hasher.hash(password, salt);
    ghost var before := db.users;
    var created := db.CreateUser(email, Some(hashed), name, None, None, now);
    assert created.Ok? by {
      forall i | 0 <= i < |before|
        ensures !Clashes(before[i], email, None, None)
      {
      }
    }
    var user := created.value;
    var _ := Folders.CreateDefaultFolder(db, user.id, now, folderFault);
    var view := ViewOf(user);
    r := Ok(Session(view, GenerateToken(view)));
  }

  /** Signs in with email and password. An unknown email, an account without
      a password and a wrong password fail with the same error. */
  method Login(db: Db, email: string, password: string, hasher: PasswordHasher) returns (r: Result<Session>)
    ensures
      var k := UserByEmail(db.users, email);
      && (k.None? ==> r == Err(ErrInvalidCredentials))
      && (k.Some? ==>
            var u := db.users[k.value];
            && (u.password.None? || u.password.value == "" || !hasher.compare(password, u.password.value) ==>
                  r == Err(ErrInvalidCredentials))
            && (u.password.Some? && u.password.value != "" && hasher.compare(password, u.password.value) ==>
                  r == Ok(Session(ViewOf(u), GenerateToken(ViewOf(u))))))
    ensures r.Err? ==> r.error == ErrInvalidCredentials
    ensures r.Ok? ==> exists u :: u in db.users && u.email == email && r.value.user == ViewOf(u)
  {
    var found := UserByEmail(db.users, email);
    if found.None? {
      return Err(ErrInvalidCredentials);
    }
    var user := db.users[found.value];
    if user.password.None? || user.password.value == "" {
      return Err(ErrInvalidCredentials);
    }
    var valid := hasher.compare(password, user.password.value);
    if !valid {
      return Err(ErrInvalidCredentials);
    }
    var view := ViewOf(user);
    r := Ok(Session(view, GenerateToken(view)));
  }

  /** The account with this id, without its password. */
  method GetUserById(db: Db, userId: Id) returns (r: Result<UserProfile>)
    ensures r.Ok? <==> exists u :: u in db.users && u.id == userId
    ensures r.Err? ==> r.error == ErrUserNotFound
    ensures r.Ok? ==> exists u :: (u in db.users && u.id == userId &&
      r.value == UserProfile(u.id, u.email, u.name, u.createdAt, u.updatedAt))
  {
    var found := UserById(db.users, userId);
    if found.None? {
      return Err(ErrUserNotFound);
    }
    var u := db.users[found.value];
    r := Ok(UserProfile(u.id, u.email, u.name, u.createdAt, u.updatedAt));
  }

  /** With unique emails, the email lookup finds the one row with that email. */
  lemma EmailFindsUser(us: seq<User>, next: nat, k: nat)
    requires UsersOk(us, next) && k < |us|
    ensures UserByEmail(us, us[k].email) == Some(k)
  {
    var found := UserByEmail(us, us[k].email);
    assert found.Some?;
    assert us[found.value].email == us[k].email;
  }

  /** A freshly registered account can sign in with the password it was
      registered with. */
  lemma LoginAfterRegister(us: seq<User>, next: nat, password: string, hasher: PasswordHasher, salt: nat)
    requires Sound(hasher) && UsersOk(us, next) && us != []
    requires us[|us| - 1].password == Some(hasher.hash(password, salt))
    ensures
      var k := UserByEmail(us, us[|us| - 1].email);
      && k == Some(|us| - 1)
      && us[k.value].password.value != ""
      && hasher.compare(password, us[k.value].password.value)
  {
    EmailFindsUser(us, next, |us| - 1);
  }
}
