/** The folder service: listing, creation, renaming and deletion of a user's
    folders, and the protected default folder that every user should have. */
module Folders {
  import opened Wrappers
  import opened Seqs
  import opened Text
  import opened Store

  const ErrNameRequired: string := "Folder name is required"
  const ErrNameTooLong: string := "Folder name must be less than 50 characters"
  const ErrNameTaken: string := "Folder with this name already exists"
  const ErrFolderNotFound: string := "Folder not found"
  const ErrRenameDefault: string := "Cannot rename default folder"
  const ErrDeleteDefault: string := "Cannot delete default folder"
  const ErrDefaultMissing: string := "Default folder not found"
  const ErrCreateDefaultFailed: string := "Failed to create default folder"

  const MaxNameLength: nat := 50

  /** The protected folder is recognised by its name alone. */
  predicate IsDefault(f: Folder) {
    f.name == DefaultFolderName
  }

  /** A listed folder with its derived flag and its note count. */
  datatype FolderView = FolderView(folder: Folder, isSystem: bool, noteCount: nat)

  function ViewOf(f: Folder, ns: seq<Note>): FolderView {
    FolderView(f, IsDefault(f), NotesIn(ns, f.id))
  }

  function FoldersOf(vs: seq<FolderView>): (r: seq<Folder>)
    ensures |r| == |vs| && forall i :: 0 <= i < |vs| ==> r[i] == vs[i].folder
  {
    seq(|vs|, i requires 0 <= i < |vs| => vs[i].folder)
  }

  /** `orderBy: { createdAt: 'asc' }`. */
  predicate FolderBefore(a: Folder, b: Folder) {
    a.createdAt <= b.createdAt
  }

  lemma FolderOrderIsTotal()
    ensures TotalPreorder(FolderBefore)
  {
  }

  /** The first failure of the name checks shared by create and rename:
      blank after trimming, then longer than 50 once trimmed. */
  function NameError(name: string): (e: Option<string>)
    ensures e == None <==> !IsBlank(name) && |Trim(name)| <= MaxNameLength
    ensures e == Some(ErrNameRequired) <==> IsBlank(name)
    ensures e == Some(ErrNameTooLong) <==> !IsBlank(name) && |Trim(name)| > MaxNameLength
  {
    if Trim(name) == [] then Some(ErrNameRequired)
    else if |Trim(name)| > MaxNameLength then Some(ErrNameTooLong)
    else None
  }

  /** The user already has a folder named exactly `name`. */
  ghost predicate NameTaken(fs: seq<Folder>, userId: Id, name: string) {
    exists j :: 0 <= j < |fs| && fs[j].userId == userId && fs[j].name == name
  }

  /** The user's folders, oldest first, each flagged as default or not and
      counted by the notes it holds. */
  method GetAllFolders(db: Db, userId: Id) returns (r: seq<FolderView>)
    ensures forall f :: f in FoldersOf(r) <==> f in db.folders && f.userId == userId
    ensures multiset(FoldersOf(r)) == multiset(Filter(db.folders, (f: Folder) => f.userId == userId))
    ensures forall i, j :: 0 <= i < j < |r| ==> r[i].folder.createdAt <= r[j].folder.createdAt
    ensures forall i :: 0 <= i < |r| ==>
      && r[i].isSystem == (r[i].folder.name == DefaultFolderName)
      && r[i].noteCount == NotesIn(db.notes, r[i].folder.id)
  {
    FolderOrderIsTotal();
    var owned := SelectSorted(db.folders, (f: Folder) => f.userId == userId, FolderBefore);
    var ns := db.notes;
    r := seq(|owned|, i requires 0 <= i < |owned| => ViewOf(owned[i], ns));
    assert FoldersOf(r) == owned;
  }

  /** A new folder with the trimmed name, unless the name is invalid or the
      user already has a folder of that name. */
  method CreateFolder(db: Db, userId: Id, name: string, now: int) returns (r: Result<Folder>)
    requires db.Valid()
    modifies db
    ensures db.Valid()
    ensures db.users == old(db.users) && db.notes == old(db.notes) && db.tasks == old(db.tasks)
    ensures NameError(name).Some? ==> r == Err(NameError(name).value)
    ensures NameError(name).None? && NameTaken(old(db.folders), userId, Trim(name)) ==> r == Err(ErrNameTaken)
    ensures r.Err? ==> db.folders == old(db.folders) && db.nextId == old(db.nextId)
    ensures r.Ok? <==> NameError(name).None? && !NameTaken(old(db.folders), userId, Trim(name))
    ensures r.Ok? ==>
      && r.value == Folder(old(db.nextId), Trim(name), userId, now)
      && db.folders == old(db.folders) + [r.value]
  {
    var invalid := NameError(name);
    if invalid.Some? {
      return Err(invalid.value);
    }
    var trimmed := Trim(name);
    var existing := NamedFolder(db.folders, userId, trimmed);
    if existing.Some? {
      return Err(ErrNameTaken);
    }
    var folder := Folder(db.nextId, trimmed, userId, now);
    db.AddFolder(folder);
    r := Ok(folder);
  }

  /** Renames one of the user's folders; the default folder is protected and
      the new name must not be taken by another of the user's folders. */
  method UpdateFolder(db: Db, folderId: Id, userId: Id, name: string) returns (r: Result<Folder>)
    requires db.Valid()
    modifies db
    ensures db.Valid()
    ensures db.users == old(db.users) && db.notes == old(db.notes) && db.tasks == old(db.tasks)
    ensures db.nextId == old(db.nextId)
    ensures r.Err? ==> db.folders == old(db.folders)
    ensures
      var fs := old(db.folders);
      var k := OwnedFolder(fs, folderId, userId);
      && (NameError(name).Some? ==> r == Err(NameError(name).value))
      && (NameError(name).None? && k.None? ==> r == Err(ErrFolderNotFound))
      && (NameError(name).None? && k.Some? && IsDefault(fs[k.value]) ==> r == Err(ErrRenameDefault))
      && (NameError(name).None? && k.Some? && !IsDefault(fs[k.value]) ==>
            if exists j :: 0 <= j < |fs| && fs[j].userId == userId && fs[j].name == Trim(name) && fs[j].id != folderId
            then r == Err(ErrNameTaken)
            else r == Ok(fs[k.value].(name := Trim(name))) && db.folders == fs[k.value := r.value])
    // Keeping the current name is never a clash with the folder itself.
    ensures
      var k := OwnedFolder(old(db.folders), folderId, userId);
      (NameError(name).None? && k.Some? && !IsDefault(old(db.folders)[k.value])
        && Trim(name) == old(db.folders)[k.value].name) ==> r.Ok?
  {
    var invalid := NameError(name);
    if invalid.Some? {
      return Err(invalid.value);
    }
    var trimmed := Trim(name);
    var existing := OwnedFolder(db.folders, folderId, userId);
    if existing.None? {
      return Err(ErrFolderNotFound);
    }
    var k := existing.value;
    if db.folders[k].name == DefaultFolderName {
      return Err(ErrRenameDefault);
    }
    var duplicate := FindFirst(db.folders, (f: Folder) => f.userId == userId && f.name == trimmed && f.id != folderId);
    if duplicate.Some? {
      return Err(ErrNameTaken);
    }
    var renamed := db.folders[k].(name := trimmed);
    db.RenameFolder(k, trimmed);
    r := Ok(renamed);
  }

  /** Deletes one of the user's folders (never the default one) and, in the same
      transaction, moves its notes into the user's default folder. */
  method DeleteFolder(db: Db, folderId: Id, userId: Id, now: int) returns (r: Result<()>)
    requires db.Valid()
    modifies db
    ensures db.Valid()
    ensures db.users == old(db.users) && db.tasks == old(db.tasks) && db.nextId == old(db.nextId)
    ensures
      var fs := old(db.folders);
      var k := OwnedFolder(fs, folderId, userId);
      var d := NamedFolder(fs, userId, DefaultFolderName);
      && (k.None? ==> r == Err(ErrFolderNotFound))
      && (k.Some? && IsDefault(fs[k.value]) ==> r == Err(ErrDeleteDefault))
      && (k.Some? && !IsDefault(fs[k.value]) && d.None? ==> r == Err(ErrDefaultMissing))
      && (r.Ok? <==> k.Some? && !IsDefault(fs[k.value]) && d.Some?)
      && (r.Ok? ==>
            && db.folders == RemoveAt(fs, k.value)
            && db.notes == Moved(old(db.notes), folderId, fs[d.value].id, now)
            && NotesIn(db.notes, fs[d.value].id) == NotesIn(old(db.notes), fs[d.value].id) + NotesIn(old(db.notes), folderId))
    ensures r.Err? ==> db.folders == old(db.folders) && db.notes == old(db.notes)
    ensures r.Ok? ==>
      && (forall f :: f in db.folders ==> f.id != folderId)
      && (forall n :: n in db.notes ==> n.folderId != folderId)
      && |db.notes| == |old(db.notes)|
      && (forall i :: 0 <= i < |db.notes| && old(db.notes)[i].folderId != folderId ==> db.notes[i] == old(db.notes)[i])
      && (forall i :: 0 <= i < |db.notes| && old(db.notes)[i].userId != userId ==> db.notes[i] == old(db.notes)[i])
  {
    var existing := OwnedFolder(db.folders, folderId, userId);
    if existing.None? {
      return Err(ErrFolderNotFound);
    }
    var k := existing.value;
    if db.folders[k].name == DefaultFolderName {
      return Err(ErrDeleteDefault);
    }
    var default := NamedFolder(db.folders, userId, DefaultFolderName);
    if default.None? {
      return Err(ErrDefaultMissing);
    }
    var target := db.folders[default.value].id;
    ghost var fs, ns := db.folders, db.notes;
    DeletedFolderEffects(fs, ns, db.nextId, k, target, userId, now);
    // The transaction: every note of the folder moves, then the folder row goes.
    db.MoveNotes(folderId, target, now);
    db.RemoveFolder(k);
    r := Ok(());
  }

  /** What deleting folder `fs[k]` of `userId` does to the two tables when its
      notes go to the folder `target`: no row refers to the deleted id any more,
      only that folder's notes change (so no other user's note does), the
      table keeps its size and the target gains exactly the moved notes. */
  lemma DeletedFolderEffects(fs: seq<Folder>, ns: seq<Note>, next: nat, k: nat, target: Id, userId: Id, now: int)
    requires FoldersOk(fs, next) && NotesOk(ns, fs, next)
    requires k < |fs| && fs[k].userId == userId && fs[k].id != target
    requires HasFolder(fs, target, userId)
    ensures forall i :: 0 <= i < |ns| && ns[i].folderId == fs[k].id ==> HasFolder(fs, target, ns[i].userId)
    ensures forall f :: f in RemoveAt(fs, k) ==> f.id != fs[k].id
    ensures
      var ns' := Moved(ns, fs[k].id, target, now);
      && |ns'| == |ns|
      && (forall n :: n in ns' ==> n.folderId != fs[k].id)
      && (forall i :: 0 <= i < |ns| && ns[i].folderId != fs[k].id ==> ns'[i] == ns[i])
      && (forall i :: 0 <= i < |ns| && ns[i].userId != userId ==> ns'[i] == ns[i])
      && NotesIn(ns', target) == NotesIn(ns, target) + NotesIn(ns, fs[k].id)
  {
    forall i | 0 <= i < |ns| && ns[i].folderId == fs[k].id
      ensures ns[i].userId == userId
    {
      FolderOwner(fs, next, k, ns[i].userId);
    }
    var rest := RemoveAt(fs, k);
    forall f | f in rest
      ensures f.id != fs[k].id
    {
      var j :| 0 <= j < |rest| && rest[j] == f;
      if j < k { assert f == fs[j]; } else { assert f == fs[j + 1]; }
    }
    MoveConservesNotes(ns, fs[k].id, target, now);
  }

  /** One of the user's folders, looked up by id and owner together. */
  method GetFolderById(db: Db, folderId: Id, userId: Id) returns (r: Result<Folder>)
    ensures r.Ok? <==> exists f :: f in db.folders && f.id == folderId && f.userId == userId
    ensures r.Ok? ==> r.value in db.folders && r.value.id == folderId && r.value.userId == userId
    ensures r.Err? ==> r.error == ErrFolderNotFound
  {
    var found := OwnedFolder(db.folders, folderId, userId);
    if found.None? {
      return Err(ErrFolderNotFound);
    }
    r := Ok(db.folders[found.value]);
  }

  /** Returns the user's default folder, creating it only when there is none.
      `fault` stands for the store refusing the insert. */
  method CreateDefaultFolder(db: Db, userId: Id, now: int, fault: bool) returns (r: Result<Folder>)
    requires db.Valid()
    modifies db
    ensures db.Valid()
    ensures db.users == old(db.users) && db.notes == old(db.notes) && db.tasks == old(db.tasks)
    ensures
      var d := NamedFolder(old(db.folders), userId, DefaultFolderName);
      && (d.Some? ==> r == Ok(old(db.folders)[d.value]) && db.folders == old(db.folders))
      && (d.None? && fault ==> r == Err(ErrCreateDefaultFailed) && db.folders == old(db.folders))
      && (d.None? && !fault ==>
            && r == Ok(Folder(old(db.nextId), DefaultFolderName, userId, now))
            && db.folders == old(db.folders) + [r.value])
    ensures r.Err? ==> db.folders == old(db.folders) && db.nextId == old(db.nextId)
    ensures r.Ok? ==> r.value in db.folders && r.value.userId == userId && IsDefault(r.value)
    ensures r.Ok? ==> NamedCount(db.folders, userId, DefaultFolderName) == 1
  {
    var existing := NamedFolder(db.folders, userId, DefaultFolderName);
    if existing.Some? {
      r := Ok(db.folders[existing.value]);
    } else if fault {
      return Err(ErrCreateDefaultFailed);
    } else {
      var folder := Folder(db.nextId, DefaultFolderName, userId, now);
      db.AddFolder(folder);
      r := Ok(folder);
    }
    ExactlyOneNamed(db.folders, db.nextId, userId, DefaultFolderName, r.value);
  }

  /** How many of the user's folders are called `name`. */
  function NamedCount(fs: seq<Folder>, userId: Id, name: string): nat {
    if fs == [] then 0
    else
      var last := fs[|fs| - 1];
      NamedCount(fs[..|fs| - 1], userId, name) + (if last.userId == userId && last.name == name then 1 else 0)
  }

  /** The count is positive exactly when some folder of the user has the name. */
  lemma {:induction false} NamedCountPositive(fs: seq<Folder>, userId: Id, name: string)
    ensures NamedCount(fs, userId, name) > 0 <==> NameTaken(fs, userId, name)
  {
    if fs != [] {
      var init := fs[..|fs| - 1];
      NamedCountPositive(init, userId, name);
      if NameTaken(init, userId, name) {
        var j :| 0 <= j < |init| && init[j].userId == userId && init[j].name == name;
        assert fs[j] == init[j];
      }
      if NameTaken(fs, userId, name) && !NameTaken(init, userId, name) {
        var j :| 0 <= j < |fs| && fs[j].userId == userId && fs[j].name == name;
        assert j == |fs| - 1;
      }
    }
  }

  /** Unique names per user: no name, the default one included, occurs twice. */
  lemma {:induction false} AtMostOneNamed(fs: seq<Folder>, next: nat, userId: Id, name: string)
    requires FoldersOk(fs, next)
    ensures NamedCount(fs, userId, name) <= 1
  {
    if fs != [] {
      var init := fs[..|fs| - 1];
      var last := fs[|fs| - 1];
      assert FoldersOk(init, next);
      AtMostOneNamed(init, next, userId, name);
      if last.userId == userId && last.name == name {
        forall j | 0 <= j < |init|
          ensures !(init[j].userId == userId && init[j].name == name)
        {
          assert init[j] == fs[j];
        }
        NamedCountPositive(init, userId, name);
      }
    }
  }

  lemma ExactlyOneNamed(fs: seq<Folder>, next: nat, userId: Id, name: string, f: Folder)
    requires FoldersOk(fs, next)
    requires f in fs && f.userId == userId && f.name == name
    ensures NamedCount(fs, userId, name) == 1
  {
    AtMostOneNamed(fs, next, userId, name);
    NamedCountPositive(fs, userId, name);
    var j :| 0 <= j < |fs| && fs[j] == f;
  }

  /** Note conservation when a folder's notes move to another folder: the
      target gains exactly the source's notes, the source is emptied, every
      other folder keeps its count, and the table keeps its size. */
  lemma {:induction false} MoveConservesNotes(ns: seq<Note>, from: Id, to: Id, now: int)
    requires from != to
    ensures |Moved(ns, from, to, now)| == |ns|
    ensures NotesIn(Moved(ns, from, to, now), to) == NotesIn(ns, to) + NotesIn(ns, from)
    ensures NotesIn(Moved(ns, from, to, now), from) == 0
    ensures forall other :: other != from && other != to ==>
      NotesIn(Moved(ns, from, to, now), other) == NotesIn(ns, other)
  {
    if ns != [] {
      var init := ns[..|ns| - 1];
      MoveConservesNotes(init, from, to, now);
      assert Moved(ns, from, to, now)[..|ns| - 1] == Moved(init, from, to, now);
    }
  }
}
