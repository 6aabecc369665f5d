/** Properties that span several service calls, stated as client methods
    that make the calls in sequence and promise what the pair achieves. */
module Scenarios {
  import opened Wrappers
  import opened Seqs
  import opened Store
  import Folders
  import Tasks
  import Auth
  import OAuth

  /** Asking twice for the default folder gives the same folder, the second
      call changes nothing, and the user has exactly one default folder. */
  method DefaultFolderTwice(db: Db, userId: Id, now: int, later: int) returns (first: Result<Folder>, second: Result<Folder>)
    requires db.Valid()
    modifies db
    ensures db.Valid()
    ensures first.Ok? && second == first
    ensures Folders.NamedCount(db.folders, userId, DefaultFolderName) == 1
    // Only the first call may write: the table ends as that call alone left it.
    ensures NamedFolder(old(db.folders), userId, DefaultFolderName).Some? ==> db.folders == old(db.folders)
    ensures NamedFolder(old(db.folders), userId, DefaultFolderName).None? ==> db.folders == old(db.folders) + [first.value]
  {
    first := Folders.CreateDefaultFolder(db, userId, now, false);
    ghost var between := db.folders;
    second := Folders.CreateDefaultFolder(db, userId, later, false);
    assert db.folders == between;
  }

  /** Toggling a task twice restores the task table. */
  method ToggleTwice(db: Db, taskId: Id, userId: Id) returns (first: Result<Tasks.Toggle>, second: Result<Tasks.Toggle>)
    requires db.Valid()
    modifies db
    ensures db.Valid()
    ensures db.tasks == old(db.tasks)
    ensures first.Ok? <==> second.Ok?
    ensures first.Ok? ==>
      && first.value.previousStatus == second.value.newStatus
      && first.value.newStatus == second.value.previousStatus
  {
    first := Tasks.ToggleTaskStatus(db, taskId, userId);
    ghost var k := OwnedTask(old(db.tasks), taskId, userId);
    if first.Ok? {
      // The toggle keeps ids and owners, so the second lookup finds the same row.
      FindFirstSame(db.tasks, old(db.tasks), (t: Task) => t.id == taskId && t.userId == userId);
    }
    second := Tasks.ToggleTaskStatus(db, taskId, userId);
    if first.Ok? {
      assert db.tasks == old(db.tasks)[k.value := old(db.tasks)[k.value]];
    }
  }

  /** A new account can sign in at once with the password it registered. */
  method RegisterThenLogin(db: Db, email: string, password: string, name: string,
                           hasher: Auth.PasswordHasher, salt: nat, now: int, folderFault: bool)
    returns (registered: Result<Auth.Session>, login: Result<Auth.Session>)
    requires db.Valid() && Auth.Sound(hasher)
    requires UserByEmail(db.users, email).None?
    modifies db
    ensures registered.Ok? && login.Ok?
    ensures login.value == registered.value
  {
    registered := Auth.Register(db, email, password, name, hasher, salt, now, folderFault);
    Auth.LoginAfterRegister(db.users, db.nextId, password, hasher, salt);
    login := Auth.Login(db, email, password, hasher);
  }

  /** Repeating a Google sign-in with the same profile returns the same
      account and adds no account. */
  method GoogleTwice(db: Db, profile: OAuth.GoogleProfile, now: int, later: int)
    returns (first: Result<User>, second: Result<User>)
    requires db.Valid()
    modifies db
    ensures db.Valid()
    ensures first.Ok? ==> second == first
    ensures first.Ok? ==> profile.emails != []
    // The user table ends as the first call alone left it: the repeat writes nothing.
    ensures first.Ok? && profile.emails != [] ==>
      var us := old(db.users);
      var byId := UserByGoogleId(us, profile.id);
      var byEmail := UserByEmail(us, profile.emails[0]);
      && (byId.Some? ==> db.users == us)
      && (byId.None? && byEmail.Some? ==> db.users == OAuth.LinkGoogle(us, byEmail.value, profile.id, now))
      && (byId.None? && byEmail.None? ==> db.users == us + [first.value])
      && |db.users| == |us| + (if byId.None? && byEmail.None? then 1 else 0)
  {
    first := OAuth.HandleGoogleCallback(db, profile, now);
    ghost var between := db.users;
    if first.Ok? {
      var k :| 0 <= k < |db.users| && db.users[k] == first.value;
      OAuth.GoogleIdFindsUser(db.users, db.nextId, k, profile.id);
    }
    second := OAuth.HandleGoogleCallback(db, profile, later);
    assert first.Ok? ==> db.users == between;
  }

  /** Repeating a GitHub sign-in with the same profile returns the same
      account and adds no account. */
  method GitHubTwice(db: Db, profile: OAuth.GitHubProfile, now: int, later: int)
    returns (first: Result<User>, second: Result<User>)
    requires db.Valid()
    modifies db
    ensures db.Valid()
    ensures first.Ok? ==> second == first
    // The user table ends as the first call alone left it: the repeat writes nothing.
    ensures first.Ok? ==>
      var us := old(db.users);
      var byId := UserByGitHubId(us, profile.id);
      var byEmail := UserByEmail(us, OAuth.GitHubEmail(profile));
      && (byId.Some? ==> db.users == us)
      && (byId.None? && byEmail.Some? ==> db.users == OAuth.LinkGitHub(us, byEmail.value, profile.id, now))
      && (byId.None? && byEmail.None? ==> db.users == us + [first.value])
      && |db.users| == |us| + (if byId.None? && byEmail.None? then 1 else 0)
  {
    first := OAuth.HandleGitHubCallback(db, profile, now);
    ghost var between := db.users;
    if first.Ok? {
      var k :| 0 <= k < |db.users| && db.users[k] == first.value;
      OAuth.GitHubIdFindsUser(db.users, db.nextId, k, profile.id);
    }
    second := OAuth.HandleGitHubCallback(db, profile, later);
    assert first.Ok? ==> db.users == between;
  }

  /** A Google sign-in with the email of a password account links to that
      account: its password still works and no account is added. */
  method GoogleLinksPasswordAccount(db: Db, email: string, password: string, hasher: Auth.PasswordHasher,
                                    profile: OAuth.GoogleProfile, now: int)
    returns (linked: Result<User>, login: Result<Auth.Session>)
    requires db.Valid() && Auth.Sound(hasher)
    requires profile.emails != [] && profile.emails[0] == email
    requires UserByGoogleId(db.users, profile.id).None?
    requires UserByEmail(db.users, email).Some?
    requires
      var u := db.users[UserByEmail(db.users, email).value];
      u.password.Some? && u.password.value != "" && hasher.compare(password, u.password.value)
    modifies db
    ensures linked.Ok? && login.Ok?
    ensures |db.users| == |old(db.users)|
    ensures linked.value.id == login.value.user.id && linked.value.email == email
  {
    linked := OAuth.HandleGoogleCallback(db, profile, now);
    ghost var k := UserByEmail(old(db.users), email).value;
    Auth.EmailFindsUser(db.users, db.nextId, k);
    login := Auth.Login(db, email, password, hasher);
  }
}
