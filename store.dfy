/** The persistent store behind every service: four tables of rows (users,
    folders, notes, tasks) held by one `Db` object, standing for the Prisma
    client. Row ids come from one counter, so a created row's id is fresh.
    `createdAt` and `updatedAt` are the caller's clock reading (`now`);
    `updatedAt` is refreshed by every update of a user or a note row. */
module Store {
  import opened Wrappers
  import opened Seqs

  type Id = nat

  /** Row ids count up from 1, so 0 names no row and stands for an id that
      was not given (JavaScript treats it as false). */
  const NoId: Id := 0

  datatype User = User(
    id: Id, email: string, password: Option<string>, name: string,
    googleId: Option<string>, githubId: Option<string>, createdAt: int, updatedAt: int)

  datatype Folder = Folder(id: Id, name: string, userId: Id, createdAt: int)

  datatype Note = Note(
    id: Id, title: string, content: string, folderId: Id, userId: Id, createdAt: int, updatedAt: int)

  datatype Task = Task(
    id: Id, title: string, description: Option<string>, completed: bool, userId: Id, createdAt: int)

  /** The name that marks a user's protected default folder ("All"). */
  const DefaultFolderName: string := "\U{0412}\U{0441}\U{0435}"

  /** The store's refusal of a row that repeats a unique column of the user table. */
  const ErrUniqueConstraint: string := "Unique constraint failed"

  // ---- Table invariants ----

  ghost predicate UsersOk(us: seq<User>, next: nat) {
    && (forall i :: 0 <= i < |us| ==> us[i].id < next)
    && (forall i, j :: 0 <= i < j < |us| ==>
          && us[i].id != us[j].id
          && us[i].email != us[j].email
          && (us[i].googleId.Some? ==> us[i].googleId != us[j].googleId)
          && (us[i].githubId.Some? ==> us[i].githubId != us[j].githubId))
  }

  /** Folder ids are unique, and one user never has two folders of the same name
      (so at most one default folder). */
  ghost predicate FoldersOk(fs: seq<Folder>, next: nat) {
    && (forall i :: 0 <= i < |fs| ==> fs[i].id < next)
    && (forall i, j :: 0 <= i < j < |fs| ==> fs[i].id != fs[j].id)
    && (forall i, j :: 0 <= i < j < |fs| && fs[i].userId == fs[j].userId ==> fs[i].name != fs[j].name)
  }

  /** The user owns a folder with this id. */
  ghost predicate HasFolder(fs: seq<Folder>, id: Id, userId: Id) {
    exists j :: 0 <= j < |fs| && fs[j].id == id && fs[j].userId == userId
  }

  /** Note ids are unique, and every note lies in a folder of its own user. */
  ghost predicate NotesOk(ns: seq<Note>, fs: seq<Folder>, next: nat) {
    && (forall i :: 0 <= i < |ns| ==> ns[i].id < next)
    && (forall i, j :: 0 <= i < j < |ns| ==> ns[i].id != ns[j].id)
    && (forall i :: 0 <= i < |ns| ==> HasFolder(fs, ns[i].folderId, ns[i].userId))
  }

  ghost predicate TasksOk(ts: seq<Task>, next: nat) {
    && (forall i :: 0 <= i < |ts| ==> ts[i].id < next)
    && (forall i, j :: 0 <= i < j < |ts| ==> ts[i].id != ts[j].id)
  }

  // ---- The `where` clauses the services use, as lookups ----

  /** `findFirst({ where: { id, userId } })` on folders. */
  function OwnedFolder(fs: seq<Folder>, id: Id, userId: Id): Option<nat> {
    FindFirst(fs, (f: Folder) => f.id == id && f.userId == userId)
  }

  /** `findFirst({ where: { userId, name } })` on folders. */
  function NamedFolder(fs: seq<Folder>, userId: Id, name: string): Option<nat> {
    FindFirst(fs, (f: Folder) => f.userId == userId && f.name == name)
  }

  /** `findFirst({ where: { id, userId } })` on notes. */
  function OwnedNote(ns: seq<Note>, id: Id, userId: Id): Option<nat> {
    FindFirst(ns, (n: Note) => n.id == id && n.userId == userId)
  }

  /** `findFirst({ where: { id, userId } })` on tasks. */
  function OwnedTask(ts: seq<Task>, id: Id, userId: Id): Option<nat> {
    FindFirst(ts, (t: Task) => t.id == id && t.userId == userId)
  }

  /** `findUnique({ where: { email } })` on users. */
  function UserByEmail(us: seq<User>, email: string): Option<nat> {
    FindFirst(us, (u: User) => u.email == email)
  }

  /** `findUnique({ where: { id } })` on users. */
  function UserById(us: seq<User>, id: Id): Option<nat> {
    FindFirst(us, (u: User) => u.id == id)
  }

  /** `findUnique({ where: { googleId } })` on users. */
  function UserByGoogleId(us: seq<User>, googleId: string): Option<nat> {
    FindFirst(us, (u: User) => u.googleId == Some(googleId))
  }

  /** `findUnique({ where: { githubId } })` on users. */
  function UserByGitHubId(us: seq<User>, githubId: string): Option<nat> {
    FindFirst(us, (u: User) => u.githubId == Some(githubId))
  }

  /** The number of notes whose folder is `folderId` (`_count.notes`). */
  function NotesIn(ns: seq<Note>, folderId: Id): nat {
    if ns == [] then 0
    else NotesIn(ns[..|ns| - 1], folderId) + (if ns[|ns| - 1].folderId == folderId then 1 else 0)
  }

  /** The count is the number of rows the `where: { folderId }` filter selects. */
  lemma {:induction false} NotesInCountsRows(ns: seq<Note>, folderId: Id)
    ensures NotesIn(ns, folderId) == |Filter(ns, (n: Note) => n.folderId == folderId)|
  {
    if ns != [] {
      NotesInCountsRows(ns[..|ns| - 1], folderId);
    }
  }

  /** One row of `updateMany({ where: { folderId: from }, data: { folderId: to } })`. */
  function MoveNote(n: Note, from: Id, to: Id, now: int): Note {
    if n.folderId == from then n.(folderId := to, updatedAt := now) else n
  }

  /** The note table after that `updateMany`. */
  function Moved(ns: seq<Note>, from: Id, to: Id, now: int): seq<Note> {
    seq(|ns|, i requires 0 <= i < |ns| => MoveNote(ns[i], from, to, now))
  }

  /** A row removed from a table. */
  function RemoveAt<T>(s: seq<T>, k: nat): (r: seq<T>)
    requires k < |s|
    ensures |r| == |s| - 1
    ensures forall i :: 0 <= i < k ==> r[i] == s[i]
    ensures forall i :: k <= i < |r| ==> r[i] == s[i + 1]
  {
    s[..k] + s[k + 1..]
  }

  // ---- How the folder table's changes keep every note in a folder of its owner ----

  lemma FoldersGrown(fs: seq<Folder>, f: Folder, ns: seq<Note>)
    requires forall i :: 0 <= i < |ns| ==> HasFolder(fs, ns[i].folderId, ns[i].userId)
    ensures forall i :: 0 <= i < |ns| ==> HasFolder(fs + [f], ns[i].folderId, ns[i].userId)
  {
    forall i | 0 <= i < |ns|
      ensures HasFolder(fs + [f], ns[i].folderId, ns[i].userId)
    {
      var j :| 0 <= j < |fs| && fs[j].id == ns[i].folderId && fs[j].userId == ns[i].userId;
      assert (fs + [f])[j] == fs[j];
    }
  }

  lemma FolderRenamed(fs: seq<Folder>, k: nat, name: string, ns: seq<Note>)
    requires k < |fs|
    requires forall i :: 0 <= i < |ns| ==> HasFolder(fs, ns[i].folderId, ns[i].userId)
    ensures forall i :: 0 <= i < |ns| ==> HasFolder(fs[k := fs[k].(name := name)], ns[i].folderId, ns[i].userId)
  {
    var fs' := fs[k := fs[k].(name := name)];
    forall i | 0 <= i < |ns|
      ensures HasFolder(fs', ns[i].folderId, ns[i].userId)
    {
      var j :| 0 <= j < |fs| && fs[j].id == ns[i].folderId && fs[j].userId == ns[i].userId;
      assert fs'[j].id == fs[j].id && fs'[j].userId == fs[j].userId;
    }
  }

  lemma FolderRemoved(fs: seq<Folder>, k: nat, ns: seq<Note>)
    requires k < |fs|
    requires forall i :: 0 <= i < |ns| ==> HasFolder(fs, ns[i].folderId, ns[i].userId)
    requires forall i :: 0 <= i < |ns| ==> ns[i].folderId != fs[k].id
    ensures forall i :: 0 <= i < |ns| ==> HasFolder(RemoveAt(fs, k), ns[i].folderId, ns[i].userId)
  {
    var fs' := RemoveAt(fs, k);
    forall i | 0 <= i < |ns|
      ensures HasFolder(fs', ns[i].folderId, ns[i].userId)
    {
      var j :| 0 <= j < |fs| && fs[j].id == ns[i].folderId && fs[j].userId == ns[i].userId;
      if j < k {
        assert fs'[j] == fs[j];
      } else {
        assert j > k && fs'[j - 1] == fs[j];
      }
    }
  }

  /** With unique folder ids, a folder id determines its owner. */
  lemma FolderOwner(fs: seq<Folder>, next: nat, k: nat, userId: Id)
    requires FoldersOk(fs, next) && k < |fs|
    requires HasFolder(fs, fs[k].id, userId)
    ensures fs[k].userId == userId
  {
    var j :| 0 <= j < |fs| && fs[j].id == fs[k].id && fs[j].userId == userId;
    assert j == k;
  }

  class Db {
    var users: seq<User>
    var folders: seq<Folder>
    var notes: seq<Note>
    var tasks: seq<Task>
    var nextId: nat

    ghost predicate Valid()
      reads this
    {
      && UsersOk(users, nextId)
      && FoldersOk(folders, nextId)
      && NotesOk(notes, folders, nextId)
      && TasksOk(tasks, nextId)
    }

    constructor ()
      ensures Valid()
      ensures users == [] && folders == [] && notes == [] && tasks == []
      ensures nextId == NoId + 1
    {
      users, folders, notes, tasks := [], [], [], [];
      nextId := NoId + 1;
    }

    /** `prisma.user.create`: inserts a fresh user unless a unique column
        (email, googleId, githubId) repeats an existing row. */
    method CreateUser(email: string, password: Option<string>, name: string,
                      googleId: Option<string>, githubId: Option<string>, now: int)
      returns (r: Result<User>)
      requires Valid()
      modifies this
      ensures Valid()
      ensures folders == old(folders) && notes == old(notes) && tasks == old(tasks)
      ensures r.Err? <==> exists i :: 0 <= i < |old(users)| && Clashes(old(users)[i], email, googleId, githubId)
      ensures r.Err? ==> r.error == ErrUniqueConstraint && users == old(users) && nextId == old(nextId)
      ensures r.Ok? ==>
        && r.value == User(old(nextId), email, password, name, googleId, githubId, now, now)
        && users == old(users) + [r.value]
        && nextId == old(nextId) + 1
    {
      var clash := FindFirst(users, (u: User) => Clashes(u, email, googleId, githubId));
      if clash.Some? {
        return Err(ErrUniqueConstraint);
      }
      var user := User(nextId, email, password, name, googleId, githubId, now, now);
      users := users + [user];
      nextId := nextId + 1;
      r := Ok(user);
    }

    /** `updateMany` of the notes in folder `from` to folder `to`, which the
        owner of every such note also owns. */
    method MoveNotes(from: Id, to: Id, now: int)
      requires Valid()
      requires forall i :: 0 <= i < |notes| && notes[i].folderId == from ==> HasFolder(folders, to, notes[i].userId)
      modifies this
      ensures Valid()
      ensures notes == Moved(old(notes), from, to, now)
      ensures users == old(users) && folders == old(folders) && tasks == old(tasks) && nextId == old(nextId)
    {
      ghost var before := notes;
      var k := 0;
      while k < |notes|
        invariant 0 <= k <= |notes| == |before|
        invariant forall i :: 0 <= i < k ==> notes[i] == MoveNote(before[i], from, to, now)
        invariant forall i :: k <= i < |notes| ==> notes[i] == before[i]
        invariant users == old(users) && folders == old(folders) && tasks == old(tasks) && nextId == old(nextId)
      {
        if notes[k].folderId == from {
          notes := notes[k := notes[k].(folderId := to, updatedAt := now)];
        }
        k := k + 1;
      }
      assert notes == Moved(before, from, to, now);
    }

    /** `prisma.folder.create` of a row with the next id and a name its
        owner does not use yet. */
    method AddFolder(f: Folder)
      requires Valid() && f.id == nextId
      requires forall j :: 0 <= j < |folders| && folders[j].userId == f.userId ==> folders[j].name != f.name
      modifies this
      ensures Valid()
      ensures folders == old(folders) + [f] && nextId == old(nextId) + 1
      ensures users == old(users) && notes == old(notes) && tasks == old(tasks)
    {
      FoldersGrown(folders, f, notes);
      folders := folders + [f];
      nextId := nextId + 1;
    }

    /** `prisma.folder.update` of a row's name to one no other folder of its
        owner has. */
    method RenameFolder(k: nat, name: string)
      requires Valid() && k < |folders|
      requires forall j :: 0 <= j < |folders| && j != k && folders[j].userId == folders[k].userId ==> folders[j].name != name
      modifies this
      ensures Valid()
      ensures folders == old(folders)[k := old(folders)[k].(name := name)]
      ensures users == old(users) && notes == old(notes) && tasks == old(tasks) && nextId == old(nextId)
    {
      FolderRenamed(folders, k, name, notes);
      folders := folders[k := folders[k].(name := name)];
    }

    /** `prisma.folder.delete` of a row no note lies in. */
    method RemoveFolder(k: nat)
      requires Valid() && k < |folders|
      requires forall i :: 0 <= i < |notes| ==> notes[i].folderId != folders[k].id
      modifies this
      ensures Valid()
      ensures folders == RemoveAt(old(folders), k)
      ensures users == old(users) && notes == old(notes) && tasks == old(tasks) && nextId == old(nextId)
    {
      FolderRemovedKeepsTables(folders, notes, nextId, k);
      folders := RemoveAt(folders, k);
    }

    /** `prisma.note.create` of a row with the next id, in a folder of its owner. */
    method AddNote(n: Note)
      requires Valid() && n.id == nextId && HasFolder(folders, n.folderId, n.userId)
      modifies this
      ensures Valid()
      ensures notes == old(notes) + [n] && nextId == old(nextId) + 1
      ensures users == old(users) && folders == old(folders) && tasks == old(tasks)
    {
      NoteAdded(notes, folders, nextId, n);
      notes := notes + [n];
      nextId := nextId + 1;
    }

    /** `prisma.note.update` of a row, which keeps its id and stays in a folder
        of its owner. */
    method ReplaceNote(k: nat, n: Note)
      requires Valid() && k < |notes| && n.id == notes[k].id && HasFolder(folders, n.folderId, n.userId)
      modifies this
      ensures Valid()
      ensures notes == old(notes)[k := n]
      ensures users == old(users) && folders == old(folders) && tasks == old(tasks) && nextId == old(nextId)
    {
      NoteReplaced(notes, folders, nextId, k, n);
      notes := notes[k := n];
    }

    /** `prisma.note.delete` of a row: exactly the notes with its id go. */
    method RemoveNote(k: nat)
      requires Valid() && k < |notes|
      modifies this
      ensures Valid()
      ensures notes == RemoveAt(old(notes), k)
      ensures forall n :: n in notes <==> n in old(notes) && n.id != old(notes)[k].id
      ensures users == old(users) && folders == old(folders) && tasks == old(tasks) && nextId == old(nextId)
    {
      NoteRemoved(notes, folders, nextId, k);
      notes := RemoveAt(notes, k);
    }

    /** `prisma.task.create` of a row with the next id. */
    method AddTask(t: Task)
      requires Valid() && t.id == nextId
      modifies this
      ensures Valid()
      ensures tasks == old(tasks) + [t] && nextId == old(nextId) + 1
      ensures users == old(users) && folders == old(folders) && notes == old(notes)
    {
      tasks := tasks + [t];
      nextId := nextId + 1;
    }

    /** `prisma.task.update` of a row, which keeps its id. */
    method ReplaceTask(k: nat, t: Task)
      requires Valid() && k < |tasks| && t.id == tasks[k].id
      modifies this
      ensures Valid()
      ensures tasks == old(tasks)[k := t]
      ensures users == old(users) && folders == old(folders) && notes == old(notes) && nextId == old(nextId)
    {
      tasks := tasks[k := t];
    }

    /** `prisma.task.delete` of a row: exactly the tasks with its id go. */
    method RemoveTask(k: nat)
      requires Valid() && k < |tasks|
      modifies this
      ensures Valid()
      ensures tasks == RemoveAt(old(tasks), k)
      ensures forall t :: t in tasks <==> t in old(tasks) && t.id != old(tasks)[k].id
      ensures users == old(users) && folders == old(folders) && notes == old(notes) && nextId == old(nextId)
    {
      TaskRemoved(tasks, nextId, k);
      tasks := RemoveAt(tasks, k);
    }
  }

  /** A new user row with these unique columns would repeat `u`'s. */
  predicate Clashes(u: User, email: string, googleId: Option<string>, githubId: Option<string>) {
    || u.email == email
    || (googleId.Some? && u.googleId == googleId)
    || (githubId.Some? && u.githubId == githubId)
  }

  lemma FolderRemovedKeepsTables(fs: seq<Folder>, ns: seq<Note>, next: nat, k: nat)
    requires FoldersOk(fs, next) && NotesOk(ns, fs, next) && k < |fs|
    requires forall i :: 0 <= i < |ns| ==> ns[i].folderId != fs[k].id
    ensures FoldersOk(RemoveAt(fs, k), next) && NotesOk(ns, RemoveAt(fs, k), next)
  {
    FolderRemoved(fs, k, ns);
    var rest := RemoveAt(fs, k);
    forall i, j | 0 <= i < j < |rest|
      ensures rest[i].id != rest[j].id
      ensures rest[i].userId == rest[j].userId ==> rest[i].name != rest[j].name
    {
      var i', j' := if i < k then i else i + 1, if j < k then j else j + 1;
      assert rest[i] == fs[i'] && rest[j] == fs[j'] && i' < j';
    }
  }

  lemma NoteAdded(ns: seq<Note>, fs: seq<Folder>, next: nat, n: Note)
    requires NotesOk(ns, fs, next) && n.id == next
    requires HasFolder(fs, n.folderId, n.userId)
    ensures NotesOk(ns + [n], fs, next + 1)
  {
  }

  lemma NoteReplaced(ns: seq<Note>, fs: seq<Folder>, next: nat, k: nat, n: Note)
    requires NotesOk(ns, fs, next) && k < |ns| && n.id == ns[k].id
    requires HasFolder(fs, n.folderId, n.userId)
    ensures NotesOk(ns[k := n], fs, next)
  {
  }

  /** Removing a row keeps the note table well formed and drops exactly the
      notes with that row's id. */
  lemma NoteRemoved(ns: seq<Note>, fs: seq<Folder>, next: nat, k: nat)
    requires NotesOk(ns, fs, next) && k < |ns|
    ensures NotesOk(RemoveAt(ns, k), fs, next)
    ensures forall n :: n in RemoveAt(ns, k) <==> n in ns && n.id != ns[k].id
  {
    var rest := RemoveAt(ns, k);
    forall i, j | 0 <= i < j < |rest|
      ensures rest[i].id != rest[j].id
    {
      var i', j' := if i < k then i else i + 1, if j < k then j else j + 1;
      assert rest[i] == ns[i'] && rest[j] == ns[j'] && i' < j';
    }
    forall n
      ensures n in rest <==> n in ns && n.id != ns[k].id
    {
      if n in rest {
        var j :| 0 <= j < |rest| && rest[j] == n;
        if j < k { assert n == ns[j]; } else { assert n == ns[j + 1]; }
      }
      if n in ns && n.id != ns[k].id {
        var j :| 0 <= j < |ns| && ns[j] == n;
        if j < k { assert rest[j] == n; } else { assert j > k && rest[j - 1] == n; }
      }
    }
  }

  /** Removing a row keeps the task table well formed and drops exactly the
      tasks with that row's id. */
  lemma TaskRemoved(ts: seq<Task>, next: nat, k: nat)
    requires TasksOk(ts, next) && k < |ts|
    ensures TasksOk(RemoveAt(ts, k), next)
    ensures forall t :: t in RemoveAt(ts, k) <==> t in ts && t.id != ts[k].id
  {
    var rest := RemoveAt(ts, k);
    forall i, j | 0 <= i < j < |rest|
      ensures rest[i].id != rest[j].id
    {
      var i', j' := if i < k then i else i + 1, if j < k then j else j + 1;
      assert rest[i] == ts[i'] && rest[j] == ts[j'] && i' < j';
    }
    forall t
      ensures t in rest <==> t in ts && t.id != ts[k].id
    {
      if t in rest {
        var j :| 0 <= j < |rest| && rest[j] == t;
        if j < k { assert t == ts[j]; } else { assert t == ts[j + 1]; }
      }
      if t in ts && t.id != ts[k].id {
        var j :| 0 <= j < |ts| && ts[j] == t;
        if j < k { assert rest[j] == t; } else { assert j > k && rest[j - 1] == t; }
      }
    }
  }
}
