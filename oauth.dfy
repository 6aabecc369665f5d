/** Sign-in through Google or GitHub. Each provider callback resolves the
    profile to one account in three steps: the account already linked to the
    provider id; otherwise the account with the profile's email, which gets
    linked; otherwise a new account without a password. */
module OAuth {
  import opened Wrappers
  import opened Seqs
  import opened Store
  import Auth

  /** Reading the first email of a Google profile that lists none fails
      before any lookup. */
  const ErrProfileWithoutEmail: string := "Cannot read properties of undefined (reading 'value')"

  const SyntheticEmailDomain: string := "@github.local"

  /** The parts of a Google profile the callback reads: its id, its email
      addresses (first one used) and its display name. */
  datatype GoogleProfile = GoogleProfile(id: string, emails: seq<string>, displayName: string)

  /** The parts of a GitHub profile the callback reads; an absent display
      name or email is the empty text. */
  datatype GitHubProfile = GitHubProfile(id: string, emails: seq<string>, displayName: string, username: string)

  /** The profile carries a usable email of its own. */
  predicate HasRealEmail(p: GitHubProfile) {
    p.emails != [] && p.emails[0] != ""
  }

  /** The email a GitHub account is keyed on: the profile's first email, or
      one made up from the username. */
  function GitHubEmail(p: GitHubProfile): (r: string)
    ensures HasRealEmail(p) ==> r == p.emails[0]
    ensures !HasRealEmail(p) ==> r == p.username + SyntheticEmailDomain
    ensures r != ""
  {
    if HasRealEmail(p) then p.emails[0] else p.username + SyntheticEmailDomain
  }

  /** The name of a new GitHub account: the display name, or the username. */
  function GitHubName(p: GitHubProfile): (r: string)
    ensures p.displayName != "" ==> r == p.displayName
    ensures p.displayName == "" ==> r == p.username
  {
    if p.displayName != "" then p.displayName else p.username
  }

  /** The user table with one row's Google id set (and its update time). */
  function LinkGoogle(us: seq<User>, k: nat, googleId: string, now: int): seq<User>
    requires k < |us|
  {
    us[k := us[k].(googleId := Some(googleId), updatedAt := now)]
  }

  /** The user table with one row's GitHub id set (and its update time). */
  function LinkGitHub(us: seq<User>, k: nat, githubId: string, now: int): seq<User>
    requires k < |us|
  {
    us[k := us[k].(githubId := Some(githubId), updatedAt := now)]
  }

  /** Linking a provider id that no account holds keeps the user table well
      formed. */
  lemma LinkKeepsUsers(us: seq<User>, next: nat, k: nat, googleId: Option<string>, githubId: Option<string>, now: int)
    requires UsersOk(us, next) && k < |us|
    requires googleId.Some? ==> forall j :: 0 <= j < |us| ==> us[j].googleId != googleId
    requires githubId.Some? ==> forall j :: 0 <= j < |us| ==> us[j].githubId != githubId
    ensures googleId.Some? ==> UsersOk(LinkGoogle(us, k, googleId.value, now), next)
    ensures githubId.Some? ==> UsersOk(LinkGitHub(us, k, githubId.value, now), next)
  {
  }

  /** With unique provider ids, the row holding a Google id is the one the
      lookup finds. */
  lemma GoogleIdFindsUser(us: seq<User>, next: nat, k: nat, googleId: string)
    requires UsersOk(us, next) && k < |us| && us[k].googleId == Some(googleId)
    ensures UserByGoogleId(us, googleId) == Some(k)
  {
    var found := UserByGoogleId(us, googleId);
    assert found.Some?;
    assert us[found.value].googleId == us[k].googleId;
  }

  /** With unique provider ids, the row holding a GitHub id is the one the
      lookup finds. */
  lemma GitHubIdFindsUser(us: seq<User>, next: nat, k: nat, githubId: string)
    requires UsersOk(us, next) && k < |us| && us[k].githubId == Some(githubId)
    ensures UserByGitHubId(us, githubId) == Some(k)
  {
    var found := UserByGitHubId(us, githubId);
    assert found.Some?;
    assert us[found.value].githubId == us[k].githubId;
  }

  /** Resolves a Google profile to an account. */
  method HandleGoogleCallback(db: Db, profile: GoogleProfile, now: int) returns (r: Result<User>)
    requires db.Valid()
    modifies db
    ensures db.Valid()
    ensures db.folders == old(db.folders) && db.notes == old(db.notes) && db.tasks == old(db.tasks)
    ensures profile.emails == [] ==> r == Err(ErrProfileWithoutEmail) && db.users == old(db.users)
    ensures profile.emails != [] ==>
      var us := old(db.users);
      var byId := UserByGoogleId(us, profile.id);
      var byEmail := UserByEmail(us, profile.emails[0]);
      && (byId.Some? ==> r == Ok(us[byId.value]) && db.users == us)
      && (byId.None? && byEmail.Some? ==>
            && db.users == LinkGoogle(us, byEmail.value, profile.id, now)
            && r == Ok(db.users[byEmail.value]))
      && (byId.None? && byEmail.None? ==>
            && r == Ok(User(old(db.nextId), profile.emails[0], None, profile.displayName, Some(profile.id), None, now, now))
            && db.users == us + [r.value])
    ensures r.Ok? ==> r.value in db.users && r.value.googleId == Some(profile.id)
    ensures |db.users| <= |old(db.users)| + 1
  {
    if profile.emails == [] {
      return Err(ErrProfileWithoutEmail);
    }
    var email := profile.emails[0];
    var byId := UserByGoogleId(db.users, profile.id);
    if byId.Some? {
      return Ok(db.users[byId.value]);
    }
    var byEmail := UserByEmail(db.users, email);
    if byEmail.Some? {
      var k := byEmail.value;
      LinkKeepsUsers(db.users, db.nextId, k, Some(profile.id), None, now);
      db.users := LinkGoogle(db.users, k, profile.id, now);
      return Ok(db.users[k]);
    }
    ghost var before := db.users;
    var created := db.CreateUser(email, None, profile.displayName, Some(profile.id), None, now);
    assert created.Ok? by {
      forall i | 0 <= i < |before|
        ensures !Clashes(before[i], email, Some(profile.id), None)
      {
      }
    }
    r := created;
  }

  /** Resolves a GitHub profile to an account. Only a profile with an email
      of its own is linked to an existing account by email; otherwise a new
      account is created, which the store refuses when the made-up email is
      already taken. */
  method HandleGitHubCallback(db: Db, profile: GitHubProfile, now: int) returns (r: Result<User>)
    requires db.Valid()
    modifies db
    ensures db.Valid()
    ensures db.folders == old(db.folders) && db.notes == old(db.notes) && db.tasks == old(db.tasks)
    ensures
      var us := old(db.users);
      var byId := UserByGitHubId(us, profile.id);
      var byEmail := UserByEmail(us, GitHubEmail(profile));
      var created := User(old(db.nextId), GitHubEmail(profile), None, GitHubName(profile), None, Some(profile.id), now, now);
      && (byId.Some? ==> r == Ok(us[byId.value]) && db.users == us)
      && (byId.None? && HasRealEmail(profile) && byEmail.Some? ==>
            && db.users == LinkGitHub(us, byEmail.value, profile.id, now)
            && r == Ok(db.users[byEmail.value]))
      && (byId.None? && !HasRealEmail(profile) && byEmail.Some? ==>
            r == Err(ErrUniqueConstraint) && db.users == us)
      && (byId.None? && byEmail.None? ==>
            r == Ok(created) && db.users == us + [created])
    ensures r.Ok? ==> r.value in db.users && r.value.githubId == Some(profile.id)
    ensures |db.users| <= |old(db.users)| + 1
  {
    var email := GitHubEmail(profile);
    var name := GitHubName(profile);
    var byId := UserByGitHubId(db.users, profile.id);
    if byId.Some? {
      return Ok(db.users[byId.value]);
    }
    if HasRealEmail(profile) {
      var byEmail := UserByEmail(db.users, email);
      if byEmail.Some? {
        var k := byEmail.value;
        LinkKeepsUsers(db.users, db.nextId, k, None, Some(profile.id), now);
        db.users := LinkGitHub(db.users, k, profile.id, now);
        return Ok(db.users[k]);
      }
    }
    ghost var before := db.users;
    r := db.CreateUser(email, None, name, None, Some(profile.id), now);
    ghost var clash := UserByEmail(before, email).Some?;
    assert r.Err? <==> clash by {
      forall i | 0 <= i < |before|
        ensures Clashes(before[i], email, None, Some(profile.id)) <==> before[i].email == email
      {
      }
    }
  }

  /** The token issued after a provider sign-in: the same payload a password
      login gives the account. */
  function CreateTokenForOAuthUser(u: User): (r: Auth.TokenPayload)
    ensures r == Auth.GenerateToken(Auth.ViewOf(u))
    ensures r.userId == u.id && r.email == u.email && r.name == u.name
  {
    Auth.GenerateToken(Auth.UserView(u.id, u.email, u.name, u.createdAt))
  }
}
