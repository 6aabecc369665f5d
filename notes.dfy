/** The note service: title derivation from content, and the user-scoped
    listing, creation, update and deletion of notes. */
module Notes {
  import opened Wrappers
  import opened Seqs
  import opened Text
  import opened Store

  const ErrContentRequired: string := "Note content is required"
  const ErrContentTooLong: string := "Note content must be less than 10000 characters"
  const ErrFolderNotOwned: string := "Folder not found or does not belong to user"
  const ErrTitleTooLong: string := "Note title must be less than 200 characters"
  const ErrNoteNotFound: string := "Note not found"

  const MaxContentLength: nat := 10000
  const MaxTitleLength: nat := 200
  const TitleWordCount: nat := 5
  const MaxGeneratedLength: nat := 50
  const TruncatedLength: nat := 47
  const Ellipsis: string := "..."

  /** "Note from " in Russian: the start of the title of blank content. */
  const FallbackTitlePrefix: string :=
    "\U{0417}\U{0430}\U{043C}\U{0435}\U{0442}\U{043A}\U{0430} \U{043E}\U{0442} "

  /** `words.slice(0, 5)`: the first (at most) five words of the content. */
  function LeadingWords(content: string): (r: seq<string>)
    ensures |r| <= TitleWordCount && r <= Words(content)
    ensures |r| == if |Words(content)| < TitleWordCount then |Words(content)| else TitleWordCount
  {
    var ws := Words(content);
    ws[..if |ws| < TitleWordCount then |ws| else TitleWordCount]
  }

  /** The first five words joined by single spaces, before any truncation. */
  function JoinedLeadingWords(content: string): string {
    Join(LeadingWords(content), " ")
  }

  /** `generateTitleFromContent`: for blank content, "Note from <today>"
      (`today` is the current date as the locale renders it); otherwise the
      first five words joined by single spaces, cut to 47 characters plus
      "..." when that is longer than 50. */
  function GenerateTitleFromContent(content: string, today: string): (r: string)
    ensures IsBlank(content) ==> r == FallbackTitlePrefix + today
    ensures !IsBlank(content) ==> 0 < |r| <= MaxGeneratedLength
  {
    if Trim(content) == [] then FallbackTitlePrefix + today
    else
      var joined := JoinedLeadingWords(content);
      assert joined != [] by {
        JoinStartsWithToken(LeadingWords(content));
      }
      if |joined| > MaxGeneratedLength then joined[..TruncatedLength] + Ellipsis else joined
  }

  /** A short enough title is the content's leading words, and splitting it
      again gives back exactly those words. */
  lemma GeneratedTitleWords(content: string, today: string)
    requires !IsBlank(content)
    requires |JoinedLeadingWords(content)| <= MaxGeneratedLength
    ensures GenerateTitleFromContent(content, today) == JoinedLeadingWords(content)
    ensures Words(GenerateTitleFromContent(content, today)) == LeadingWords(content)
    ensures |Words(GenerateTitleFromContent(content, today))| == if |Words(content)| < 5 then |Words(content)| else 5
  {
    WordsOfJoin(LeadingWords(content));
  }

  /** Six short words: the title is the first five of them. */
  lemma ShortContentTitle(today: string)
    ensures GenerateTitleFromContent("Buy milk and eggs today please", today) == "Buy milk and eggs today"
  {
    var ws := ["Buy", "milk", "and", "eggs", "today", "please"];
    JoinSixWords();
    assert forall i :: 0 <= i < |ws| ==> ws[i] != [] && HasNoSpace(ws[i]);
    WordsOfJoin(ws);
    assert LeadingWords("Buy milk and eggs today please") == ws[..5];
    JoinFiveWords();
  }

  lemma JoinSixWords()
    ensures Join(["Buy", "milk", "and", "eggs", "today", "please"], " ") == "Buy milk and eggs today please"
  {
    var tail := ["milk", "and", "eggs", "today", "please"];
    assert tail[..5] == tail;
    JoinFiveWordsOf("milk", "and", "eggs", "today", "please");
    JoinCons("Buy", tail, " ");
    assert ["Buy"] + tail == ["Buy", "milk", "and", "eggs", "today", "please"];
  }

  lemma JoinFiveWordsOf(a: string, b: string, c: string, d: string, e: string)
    ensures Join([a, b, c, d, e], " ") == a + " " + b + " " + c + " " + d + " " + e
  {
    assert Join([e], " ") == e;
    JoinCons(d, [e], " ");
    assert [d] + [e] == [d, e];
    JoinCons(c, [d, e], " ");
    assert [c] + [d, e] == [c, d, e];
    JoinCons(b, [c, d, e], " ");
    assert [b] + [c, d, e] == [b, c, d, e];
    JoinCons(a, [b, c, d, e], " ");
    assert [a] + [b, c, d, e] == [a, b, c, d, e];
  }

  lemma JoinCons(w: string, ws: seq<string>, sep: string)
    requires ws != []
    ensures Join([w] + ws, sep) == w + sep + Join(ws, sep)
  {
    assert ([w] + ws)[1..] == ws;
  }

  lemma JoinFiveWords()
    ensures Join(["Buy", "milk", "and", "eggs", "today", "please"][..5], " ") == "Buy milk and eggs today"
  {
    assert ["Buy", "milk", "and", "eggs", "today", "please"][..5] == ["Buy", "milk", "and", "eggs", "today"];
    JoinFiveWordsOf("Buy", "milk", "and", "eggs", "today");
  }

  /** A long title is the first 47 characters of the joined words and "...",
      50 characters in all. */
  lemma GeneratedTitleTruncated(content: string, today: string)
    requires !IsBlank(content)
    requires |JoinedLeadingWords(content)| > MaxGeneratedLength
    ensures |GenerateTitleFromContent(content, today)| == MaxGeneratedLength
    ensures GenerateTitleFromContent(content, today)[..TruncatedLength] == JoinedLeadingWords(content)[..TruncatedLength]
    ensures GenerateTitleFromContent(content, today)[TruncatedLength..] == Ellipsis
  {
  }

  /** A derived title does not depend on white space around the content, so
      deriving it from the stored (trimmed) content gives the same title. */
  lemma GeneratedTitleOfTrimmed(content: string, today: string)
    ensures GenerateTitleFromContent(Trim(content), today) == GenerateTitleFromContent(content, today)
  {
    TrimIdempotent(content);
    assert IsBlank(Trim(content)) <==> IsBlank(content);
  }

  /** The title of any non-blank content, laid out as tokens separated by runs
      of white space (tabs, newlines, several spaces) and padded with white
      space at either end: its first five tokens joined by single spaces, cut
      to 47 characters and "..." when that is longer than 50. */
  lemma TitleOfSpacedContent(pre: string, ws: seq<string>, gaps: seq<string>, post: string, today: string)
    requires IsBlank(pre) && IsBlank(post)
    requires |ws| >= 1 && |gaps| == |ws| - 1 && AreTokens(ws) && AreGaps(gaps)
    ensures var joined := Join(ws[..if |ws| < TitleWordCount then |ws| else TitleWordCount], " ");
            var title := GenerateTitleFromContent(pre + Interleave(ws, gaps) + post, today);
            && (|joined| <= MaxGeneratedLength ==> title == joined)
            && (|joined| > MaxGeneratedLength ==> title == joined[..TruncatedLength] + Ellipsis)
  {
    var content := pre + Interleave(ws, gaps) + post;
    WordsOfSpaced(pre, ws, gaps, post);
    assert !IsBlank(content) by {
      InterleaveEnds(ws, gaps);
      assert ws[0] != [] && HasNoSpace(ws[0]);
      assert content[|pre|] == Interleave(ws, gaps)[0] == ws[0][0];
    }
  }

  /** The first content check that fails, if any: blank, then longer than
      10000 characters once trimmed. */
  function ContentError(content: string): (e: Option<string>)
    ensures e == None <==> !IsBlank(content) && |Trim(content)| <= MaxContentLength
    ensures e == Some(ErrContentRequired) <==> IsBlank(content)
    ensures e == Some(ErrContentTooLong) <==> !IsBlank(content) && |Trim(content)| > MaxContentLength
  {
    if Trim(content) == [] then Some(ErrContentRequired)
    else if |Trim(content)| > MaxContentLength then Some(ErrContentTooLong)
    else None
  }

  /** The title a note is stored with: derived from the content when the given
      title is absent or blank, otherwise the trimmed title, at most 200 long. */
  function ResolveTitle(title: string, content: string, today: string): (r: Result<string>)
    ensures IsBlank(title) ==> r == Ok(GenerateTitleFromContent(content, today))
    ensures !IsBlank(title) ==> (r.Ok? <==> |Trim(title)| <= MaxTitleLength)
    ensures !IsBlank(title) && r.Ok? ==> r.value == Trim(title)
    ensures r.Err? ==> r.error == ErrTitleTooLong
    ensures r.Ok? && !IsBlank(content) ==> 0 < |r.value| <= MaxTitleLength
  {
    if Trim(title) == [] then Ok(GenerateTitleFromContent(content, today))
    else if |Trim(title)| > MaxTitleLength then Err(ErrTitleTooLong)
    else Ok(Trim(title))
  }

  /** `where: { userId }`, narrowed to `folderId` when one is given (the
      absent id is 0, which no row has). */
  predicate NoteSelected(n: Note, userId: Id, folderId: Id) {
    n.userId == userId && (folderId == NoId || n.folderId == folderId)
  }

  /** `orderBy: { updatedAt: 'desc' }`. */
  predicate NoteBefore(a: Note, b: Note) {
    a.updatedAt >= b.updatedAt
  }

  lemma NoteOrderIsTotal()
    ensures TotalPreorder(NoteBefore)
  {
  }

  /** The user's notes (of one folder, when `folderId` is given), most recently
      updated first. */
  method GetAllNotes(db: Db, userId: Id, folderId: Id) returns (r: seq<Note>)
    ensures forall n :: n in r <==> n in db.notes && NoteSelected(n, userId, folderId)
    ensures multiset(r) == multiset(Filter(db.notes, (n: Note) => NoteSelected(n, userId, folderId)))
    ensures forall i, j :: 0 <= i < j < |r| ==> r[i].updatedAt >= r[j].updatedAt
  {
    NoteOrderIsTotal();
    r := SelectSorted(db.notes, (n: Note) => NoteSelected(n, userId, folderId), NoteBefore);
  }

  /** `getNotesByFolder`: the listing narrowed to one folder. */
  method GetNotesByFolder(db: Db, userId: Id, folderId: Id) returns (r: seq<Note>)
    ensures forall n :: n in r <==> n in db.notes && n.userId == userId && (folderId == NoId || n.folderId == folderId)
    ensures multiset(r) == multiset(Filter(db.notes, (n: Note) => NoteSelected(n, userId, folderId)))
    ensures forall i, j :: 0 <= i < j < |r| ==> r[i].updatedAt >= r[j].updatedAt
  {
    r := GetAllNotes(db, userId, folderId);
  }

  /** One of the user's notes, looked up by id and owner together. */
  method GetNoteById(db: Db, noteId: Id, userId: Id) returns (r: Result<Note>)
    ensures r.Ok? <==> exists n :: n in db.notes && n.id == noteId && n.userId == userId
    ensures r.Ok? ==> r.value in db.notes && r.value.id == noteId && r.value.userId == userId
    ensures r.Err? ==> r.error == ErrNoteNotFound
  {
    var found := OwnedNote(db.notes, noteId, userId);
    if found.None? {
      return Err(ErrNoteNotFound);
    }
    r := Ok(db.notes[found.value]);
  }

  /** `createNote`'s checks in their order (content, then the folder's
      owner, then the title) and, when all pass, the note to insert. */
  function NewNote(fs: seq<Folder>, id: Id, userId: Id, folderId: Id, title: string, content: string,
                   now: int, today: string): (r: Result<Note>)
    ensures ContentError(content).Some? ==> r == Err(ContentError(content).value)
    ensures ContentError(content).None? && !HasFolder(fs, folderId, userId) ==> r == Err(ErrFolderNotOwned)
    ensures ContentError(content).None? && HasFolder(fs, folderId, userId) ==>
      match ResolveTitle(title, content, today)
      case Err(e) => r == Err(e)
      case Ok(t) => r == Ok(Note(id, t, Trim(content), folderId, userId, now, now))
    ensures r.Ok? ==> HasFolder(fs, r.value.folderId, r.value.userId)
    ensures r.Ok? ==> 0 < |r.value.title| <= MaxTitleLength && 0 < |r.value.content| <= MaxContentLength
  {
    if ContentError(content).Some? then Err(ContentError(content).value)
    else if OwnedFolder(fs, folderId, userId).None? then Err(ErrFolderNotOwned)
    else
      var j := OwnedFolder(fs, folderId, userId).value;
      assert fs[j].id == folderId && fs[j].userId == userId;
      match ResolveTitle(title, content, today)
      case Err(e) => Err(e)
      case Ok(t) => Ok(Note(id, t, Trim(content), folderId, userId, now, now))
  }

  /** A new note with trimmed content in one of the user's folders. */
  method CreateNote(db: Db, userId: Id, folderId: Id, title: string, content: string, now: int, today: string)
    returns (r: Result<Note>)
    requires db.Valid()
    modifies db
    ensures db.Valid()
    ensures db.users == old(db.users) && db.folders == old(db.folders) && db.tasks == old(db.tasks)
    ensures r == NewNote(old(db.folders), old(db.nextId), userId, folderId, title, content, now, today)
    ensures r.Err? ==> db.notes == old(db.notes) && db.nextId == old(db.nextId)
    ensures r.Ok? ==> db.notes == old(db.notes) + [r.value]
  {
    r := NewNote(db.folders, db.nextId, userId, folderId, title, content, now, today);
    if r.Ok? {
      db.AddNote(r.value);
    }
  }

  /** The folder check of an update passes: no folder given, the note's own
      folder given, or another folder of the same user. */
  ghost predicate FolderChangeAllowed(fs: seq<Folder>, current: Id, folderId: Id, userId: Id) {
    folderId == NoId || folderId == current || HasFolder(fs, folderId, userId)
  }

  /** `updateNote`'s checks in their order (content, the note's owner, a
      different folder's owner, the title) and, when all pass, the note as
      rewritten: new title and trimmed content, and the given folder if one
      is given (otherwise the note stays where it is). */
  function EditedNote(ns: seq<Note>, fs: seq<Folder>, noteId: Id, userId: Id, title: string, content: string,
                      folderId: Id, now: int, today: string): (r: Result<Note>)
    ensures ContentError(content).Some? ==> r == Err(ContentError(content).value)
    ensures
      var k := OwnedNote(ns, noteId, userId);
      && (ContentError(content).None? && k.None? ==> r == Err(ErrNoteNotFound))
      && (ContentError(content).None? && k.Some?
            && !FolderChangeAllowed(fs, ns[k.value].folderId, folderId, userId) ==>
            r == Err(ErrFolderNotOwned))
      && (ContentError(content).None? && k.Some?
            && FolderChangeAllowed(fs, ns[k.value].folderId, folderId, userId) ==>
            match ResolveTitle(title, content, today)
            case Err(e) => r == Err(e)
            case Ok(t) =>
              r == Ok(ns[k.value].(title := t, content := Trim(content),
                                   folderId := if folderId != NoId then folderId else ns[k.value].folderId,
                                   updatedAt := now)))
    ensures r.Ok? ==> r.value.id == noteId && r.value.userId == userId
    ensures r.Ok? ==> 0 < |r.value.title| <= MaxTitleLength && 0 < |r.value.content| <= MaxContentLength
    ensures r.Ok? ==>
      r.value.folderId == ns[OwnedNote(ns, noteId, userId).value].folderId || HasFolder(fs, r.value.folderId, userId)
  {
    if ContentError(content).Some? then Err(ContentError(content).value)
    else if OwnedNote(ns, noteId, userId).None? then Err(ErrNoteNotFound)
    else
      var note := ns[OwnedNote(ns, noteId, userId).value];
      if folderId != NoId && folderId != note.folderId && OwnedFolder(fs, folderId, userId).None? then
        Err(ErrFolderNotOwned)
      else
        assert FolderChangeAllowed(fs, note.folderId, folderId, userId) by {
          if folderId != NoId && folderId != note.folderId {
            var j := OwnedFolder(fs, folderId, userId).value;
            assert fs[j].id == folderId && fs[j].userId == userId;
          }
        }
        match ResolveTitle(title, content, today)
        case Err(e) => Err(e)
        case Ok(t) =>
          Ok(note.(title := t, content := Trim(content),
                   folderId := if folderId != NoId then folderId else note.folderId,
                   updatedAt := now))
  }

  /** Rewrites one of the user's notes as `EditedNote` says; the note keeps
      lying in a folder of its owner. */
  method UpdateNote(db: Db, noteId: Id, userId: Id, title: string, content: string,
                    folderId: Id, now: int, today: string)
    returns (r: Result<Note>)
    requires db.Valid()
    modifies db
    ensures db.Valid()
    ensures db.users == old(db.users) && db.folders == old(db.folders) && db.tasks == old(db.tasks)
    ensures db.nextId == old(db.nextId)
    ensures r == EditedNote(old(db.notes), old(db.folders), noteId, userId, title, content, folderId, now, today)
    ensures r.Err? ==> db.notes == old(db.notes)
    ensures r.Ok? ==> db.notes == old(db.notes)[OwnedNote(old(db.notes), noteId, userId).value := r.value]
    ensures r.Ok? ==> HasFolder(db.folders, r.value.folderId, userId)
  {
    r := EditedNote(db.notes, db.folders, noteId, userId, title, content, folderId, now, today);
    if r.Ok? {
      var k := OwnedNote(db.notes, noteId, userId).value;
      assert HasFolder(db.folders, db.notes[k].folderId, userId);
      db.ReplaceNote(k, r.value);
    }
  }

  /** Removes exactly the named note of the user. */
  method DeleteNote(db: Db, noteId: Id, userId: Id) returns (r: Result<()>)
    requires db.Valid()
    modifies db
    ensures db.Valid()
    ensures db.users == old(db.users) && db.folders == old(db.folders) && db.tasks == old(db.tasks)
    ensures db.nextId == old(db.nextId)
    ensures
      var k := OwnedNote(old(db.notes), noteId, userId);
      && (k.None? ==> r == Err(ErrNoteNotFound) && db.notes == old(db.notes))
      && (k.Some? ==> r == Ok(()) && db.notes == RemoveAt(old(db.notes), k.value))
    ensures r.Ok? ==> forall n :: n in db.notes <==> n in old(db.notes) && n.id != noteId
  {
    var existing := OwnedNote(db.notes, noteId, userId);
    if existing.None? {
      return Err(ErrNoteNotFound);
    }
    db.RemoveNote(existing.value);
    r := Ok(());
  }
}
