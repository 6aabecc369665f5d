# Notes and tasks service layer, modelled in Dafny

This project models the service layer of a notes-and-tasks backend: the
folder, note, task, password-account and OAuth services. In the original,
each service call reads and writes a relational store through Prisma. Here
the store is one object, `Store.Db`. It holds four tables as sequences of
rows (`users`, `folders`, `notes`, `tasks`) and the counter that hands out
row ids. Every service operation is a method that takes the store. It
performs the same checks, in the same order, as the original service, and
reports the service's own error strings. The one exception is the store's
unique-constraint error, whose text is abbreviated (see "Left out"). It
then either reports the error and leaves the store alone, or changes
exactly the rows the original changes.
The `findFirst`/`findUnique` lookups, the `findMany` filters with their
`orderBy`, and the single-row and `updateMany` writes are written out as
functions and methods on the tables.

Modules, one per service plus shared parts:

- `Wrappers`: `Option` and `Result` (an error is its message text).
- `Seqs`: filtering, first-match lookup, and a stable insertion sort.
  Listing operations use the sort to order their results.
- `Text`: JavaScript's `trim()` and `split(/\s+/)` over the ECMAScript
  white-space set, and joining words.
- `Store`: the row types and the table invariants. Ids are unique and
  below the counter. A user's folder names are distinct. Every note lies
  in a folder of its own user. Email and provider ids are unique. The
  module also holds the lookups and `Store.Db`, whose small mutation
  methods keep those invariants.
- `Folders`, `Notes`, `Tasks`, `Auth`, `OAuth`: the five services.
- `Scenarios`: properties of two calls in a row. Examples: asking for the
  default folder twice, toggling a task twice, registering and then
  logging in, and repeating an OAuth sign-in.

Choices the model makes explicit:

- The default folder is the folder named "Все".
- Only the GitHub callback falls back to a made-up `username@github.local`
  email. A Google profile without emails fails before any lookup: reading
  `emails[0].value` throws, and the error is passed to `done`.
- Absent string inputs are the empty string. The validation branches
  (`!name`, `!content`, `!title`, `description ? … : …`, `if (status)`)
  treat `undefined`, `null` and `""` alike. Values handed straight to the
  store (the `name` in register, the Google `displayName`) are always
  strings in the model; see "Left out".
  An absent folder id is `Store.NoId` (0). Row ids start at 1, so 0 names
  no row, just as a falsy `folderId` means "not given".
- bcrypt is a parameter `Auth.PasswordHasher(hash, compare)`. The only
  thing assumed about it is `Auth.Sound`: a hash is non-empty and matches
  the password it was made from. Where the library's salt would come
  from, the caller passes `salt`.
- A signed JWT is represented by its payload, `Auth.TokenPayload`.
- The clock is the `now` parameter. The locale-formatted date in the
  fallback note title is the `today` parameter.
- The store fails in two ways. A user insert that repeats a unique
  column fails with `Store.ErrUniqueConstraint`. The default-folder write
  fails when the caller sets the `fault` flag. `Auth.Register` swallows
  the second kind, as the original does.
- Rows stamped `@updatedAt` get `updatedAt := now` when they are written.
  This covers a note update, a note moved by folder deletion, and a user
  linked to a provider.

## Model

| member | source | states |
|---|---|---|
| Folders.NameError | src/services/folderService.js:40-46 | the name is accepted exactly when its trimmed form is non-empty and at most 50 long; a blank name gives "Folder name is required", a longer one the too-long error |
| Folders.GetAllFolders | src/services/folderService.js:5-36 | the result holds exactly the user's folders (same multiset as filtering the table), oldest first; `isSystem` holds iff the name is "Все"; the count is the number of notes in that folder |
| Folders.CreateFolder | src/services/folderService.js:38-76 | name errors first; then fails iff the same user already has a folder with the trimmed name (case-sensitive); otherwise appends a folder with the next id and the trimmed name; on error nothing changes |
| Folders.UpdateFolder | src/services/folderService.js:78-136 | checks name, then ownership ("Folder not found"), then the default folder ("Cannot rename default folder"), then a clash with another folder of the user; renaming to the current name always succeeds; only that row's name changes |
| Folders.DeleteFolder | src/services/folderService.js:138-191 | checks in order: not found, default folder, default folder missing; any failure leaves the store unchanged; on success the folder row is gone, its notes now sit in the default folder, whose count grows by exactly their number; no note references the deleted id; other notes, other users' notes and the note count are unchanged |
| Folders.DeletedFolderEffects | src/services/folderService.js:166-181 | the move targets a folder each moved note's owner owns; after it no note references the deleted id, the note count is the same, notes outside the folder are untouched, and the target's count is conserved |
| Folders.GetFolderById | src/services/folderService.js:193-214 | succeeds iff a folder with that id and that owner exists, and returns it; otherwise "Folder not found" |
| Folders.CreateDefaultFolder | src/services/folderService.js:216-249 | returns the user's existing default folder without writing; otherwise creates one with the next id, unless the store fails ("Failed to create default folder", nothing written); on success the user has exactly one default folder |
| Folders.NamedCountPositive | src/services/folderService.js:50-59 | a user has a folder of a given name iff the count of such folders is positive |
| Folders.AtMostOneNamed | src/services/folderService.js:50-59 | with per-user distinct names, a user has at most one folder of each name (so at most one default folder) |
| Folders.ExactlyOneNamed | src/services/folderService.js:216-238 | once a folder of that name exists for the user, there is exactly one |
| Folders.MoveConservesNotes | src/services/folderService.js:167-174 | moving the notes of one folder to another keeps the note count, adds the source's count to the target's, empties the source and leaves every other folder's count alone |
| Folders.FolderOrderIsTotal | src/services/folderService.js:18-20 | ordering by creation time ascending is a total preorder, so the sorted listing is well defined |
| Notes.LeadingWords | src/services/noteService.js:11-12 | the title words are a prefix of the content's words, min(5, word count) of them |
| Notes.GenerateTitleFromContent | src/services/noteService.js:5-19 | blank content gives the fallback "Заметка от " plus the date; any other content gives a non-empty title of at most 50 characters |
| Notes.GeneratedTitleWords | src/services/noteService.js:11-18 | when the joined first words fit in 50 characters the title is exactly them, and splitting the title again gives back those words (min(5, word count) of them) |
| Notes.GeneratedTitleTruncated | src/services/noteService.js:14-16 | when the joined words are longer than 50, the title is their first 47 characters followed by "...", 50 in all |
| Notes.GeneratedTitleOfTrimmed | src/services/noteService.js:5-19 | the generated title depends only on the trimmed content |
| Notes.TitleOfSpacedContent | src/services/noteService.js:11-18 | the title of any non-blank content is its first five white-space-separated tokens joined by single spaces, or the first 47 characters of that and "..." when it is longer than 50 |
| Notes.ShortContentTitle | src/services/noteService.js:11-18 | "Buy milk and eggs today please" gives the title "Buy milk and eggs today" |
| Notes.ContentError | src/services/noteService.js:56-62 | content is accepted iff its trimmed form is non-empty and at most 10000 long, with the two error texts for the two failures |
| Notes.ResolveTitle | src/services/noteService.js:75-83 | a blank title is generated from the content; any other title is trimmed and rejected iff longer than 200 |
| Notes.NoteOrderIsTotal | src/services/noteService.js:39-41 | ordering by update time descending is a total preorder |
| Notes.GetAllNotes | src/services/noteService.js:21-52 | exactly the user's notes, restricted to the folder when one is given (same multiset as filtering the table), newest update first |
| Notes.GetNotesByFolder | src/services/noteService.js:245-247 | the same rows as the general listing for that folder (same multiset as filtering the table) and the same order |
| Notes.GetNoteById | src/services/noteService.js:214-243 | succeeds iff a note with that id and owner exists, and returns it; otherwise "Note not found" |
| Notes.NewNote | src/services/noteService.js:56-90 | content errors first; then the folder must be the user's ("Folder not found or does not belong to user"); then the title rule; the new note stores the trimmed content, lies in a folder the user owns, and has bounded title and content |
| Notes.CreateNote | src/services/noteService.js:54-110 | the result is the new note the rules allow, with the next id, appended to the note table; on error the store is unchanged |
| Notes.EditedNote | src/services/noteService.js:114-163 | checks content, then note ownership ("Note not found"), then that a given, different folder is the user's; then the title rule; a missing folder id keeps the current folder; the id and owner never change |
| Notes.UpdateNote | src/services/noteService.js:112-183 | the result is the edited note; on success only that row of the table is replaced and its folder is the user's; on error the store is unchanged |
| Notes.DeleteNote | src/services/noteService.js:185-212 | "Note not found" unless the note is the user's; otherwise removes exactly that row; every other note stays |
| Tasks.StatusFilter | src/services/taskService.js:8-13 | no status selects all; "completed" selects completed tasks and "active" incomplete ones; any other word is rejected with the status error |
| Tasks.StatusLabel | src/services/taskService.js:177-178 | the label is "completed" iff the task is completed, "active" otherwise |
| Tasks.TaskError | src/services/taskService.js:35-45 | title required after trim, trimmed title at most 200, untrimmed description at most 1000, checked in that order |
| Tasks.StoredDescription | src/services/taskService.js:50 | an empty description is stored as absent; any other one is stored trimmed |
| Tasks.TaskOrderIsTotal | src/services/taskService.js:17-20 | incomplete before completed, then newest first, is a total preorder |
| Tasks.GetAllTasks | src/services/taskService.js:4-31 | rejects an unknown status; otherwise exactly the user's tasks of that status (same multiset as filtering the table), incomplete first and newest first within each group |
| Tasks.GetActiveTasks | src/services/taskService.js:201-203 | the listing with status "active": exactly the user's incomplete tasks (same multiset as filtering the table), newest first |
| Tasks.GetCompletedTasks | src/services/taskService.js:205-207 | the listing with status "completed": exactly the user's completed tasks (same multiset as filtering the table), newest first |
| Tasks.GetTaskById | src/services/taskService.js:140-161 | succeeds iff a task with that id and owner exists, and returns it; otherwise "Task not found" |
| Tasks.CreateTask | src/services/taskService.js:33-64 | validation errors change nothing; otherwise appends an incomplete task with the next id, the trimmed title and the stored description |
| Tasks.UpdateTask | src/services/taskService.js:66-109 | validation, then "Task not found"; on success only that row's title and description change, its completion and creation time stay |
| Tasks.DeleteTask | src/services/taskService.js:111-138 | "Task not found" unless the task is the user's; otherwise removes exactly that row |
| Tasks.ToggleTaskStatus | src/services/taskService.js:163-199 | negates the task's completion, reports the labels of the old and new value (which differ), and changes no other row or field |
| Auth.GenerateToken | src/services/authService.js:16-26 | the payload is exactly the user's id (as `userId`), email and name; nothing else of the user reaches it |
| Auth.Register | src/services/authService.js:28-64 | fails iff the email is taken, changing nothing; otherwise appends a user with the hashed password and returns its view and token; the folder table gains exactly the new user's default folder (the id after the user's) unless the folder write fails or such a folder already exists, in which case it is unchanged; a failed folder write does not fail registration, and without one the user has exactly one default folder |
| Auth.Login | src/services/authService.js:66-93 | unknown email, an account without password and a wrong password all give "Invalid credentials"; otherwise the user's view (id, email, name, createdAt) and its token |
| Auth.GetUserById | src/services/authService.js:95-112 | succeeds iff a user with that id exists and returns its fields without the password; otherwise "User not found" |
| Auth.EmailFindsUser | src/services/authService.js:31-33 | with unique emails, the email lookup finds exactly the row that holds the email |
| Auth.LoginAfterRegister | src/services/authService.js:66-81 | the newest user, stored with the hash of a password, is the one its email finds, and that password passes the comparison |
| OAuth.GitHubEmail | src/services/oauthService.js:95 | the profile's first email when it has one, otherwise the username with "@github.local"; never empty |
| OAuth.GitHubName | src/services/oauthService.js:97 | the display name when present, otherwise the username |
| OAuth.LinkKeepsUsers | src/services/oauthService.js:70-73 | setting a provider id that no account holds keeps emails and provider ids unique |
| OAuth.GoogleIdFindsUser | src/services/oauthService.js:57-59 | the row holding a Google id is the one the Google-id lookup finds |
| OAuth.GitHubIdFindsUser | src/services/oauthService.js:99-101 | the row holding a GitHub id is the one the GitHub-id lookup finds |
| OAuth.HandleGoogleCallback | src/services/oauthService.js:51-91 | no email: error, nothing changes; a user with the Google id is returned unchanged; else a user with the email gets the Google id and is returned; else one new user without password is created; other tables never change |
| OAuth.HandleGitHubCallback | src/services/oauthService.js:93-135 | as for Google, but email linking happens only for a profile with a real email; a made-up email that is already taken fails with the store's unique-constraint error and changes nothing |
| OAuth.CreateTokenForOAuthUser | src/services/oauthService.js:137-146 | the token is the one a password login gives the same account: its id, email and name |
| Store.Db.CreateUser | src/services/authService.js:41-53 | inserts a user with the next id iff no row repeats its email or provider ids; otherwise the unique-constraint error and no change |
| Store.Db.MoveNotes | src/services/folderService.js:167-174 | every note of the old folder now names the new folder (update time stamped), all other notes unchanged, invariants kept |
| Store.Db.AddFolder | src/services/folderService.js:61-66 | appends the folder and advances the counter, keeping ids unique and names distinct per user |
| Store.Db.RenameFolder | src/services/folderService.js:119-126 | only that row's name changes, and names stay distinct per user |
| Store.Db.RemoveFolder | src/services/folderService.js:176-180 | removes that row; no note pointed at it, so every note still lies in a folder of its owner |
| Store.Db.AddNote | src/services/noteService.js:85-100 | appends a note in a folder of its owner and advances the counter |
| Store.Db.ReplaceNote | src/services/noteService.js:156-173 | replaces one row by a note with the same id in a folder of its owner |
| Store.Db.RemoveNote | src/services/noteService.js:198-202 | removes one row; a note is kept iff its id differs from the removed one |
| Store.Db.AddTask | src/services/taskService.js:47-54 | appends a task and advances the counter |
| Store.Db.ReplaceTask | src/services/taskService.js:91-99 | replaces one row by a task with the same id |
| Store.Db.RemoveTask | src/services/taskService.js:124-128 | removes one row; a task is kept iff its id differs from the removed one |
| Store.NoteRemoved | src/services/noteService.js:198-202 | removing a note keeps the note invariants and drops exactly the notes with its id |
| Store.TaskRemoved | src/services/taskService.js:124-128 | removing a task keeps the task invariants and drops exactly the tasks with its id |
| Store.FolderRemovedKeepsTables | src/services/folderService.js:166-181 | removing a folder that no note references keeps the folder and note invariants |
| Store.NotesInCountsRows | src/services/folderService.js:11-17 | a folder's `_count.notes` is the number of notes the `folderId` filter selects |
| Store.RemoveAt | src/services/noteService.js:198-202 | the table without one row: every row before it stays, every row after it shifts down by one |
| Seqs.FindFirst | src/services/folderService.js:50-55 | the first row matching the `where` clause, or none iff no row matches |
| Seqs.Filter | src/services/folderService.js:7-10 | exactly the rows matching the `where` clause, in table order |
| Seqs.SelectSorted | src/services/taskService.js:15-21 | the matching rows (same multiset as the filter) sorted by the `orderBy` |
| Seqs.InsertSorted | src/services/taskService.js:17-20 | inserting into a sorted list keeps it sorted and adds exactly that element |
| Text.Trim | src/services/folderService.js:40-48 | removes leading and trailing white space only: the result is a slice of the input between two blank runs, empty iff the input is blank, and neither starts nor ends with white space |
| Text.TrimIdempotent | src/services/noteService.js:11 | trimming twice is trimming once |
| Text.SplitOnSpaces | src/services/noteService.js:11 | `split(/\s+/)`: at least one piece, none containing white space; its exact pieces are stated by `Text.SplitInterleave` |
| Text.SplitInterleave | src/services/noteService.js:11 | `split(/\s+/)` of tokens separated by non-empty runs of any white space (tabs, newlines, several spaces) gives exactly those tokens |
| Text.TrimPadded | src/services/noteService.js:11 | `trim()` of a text padded with white space at both ends is the text between the padding |
| Text.Words | src/services/noteService.js:11 | the words are non-empty and free of white space, and there are none iff the text is blank; `Text.WordsOfSpaced` and `Text.SpacedForm` give the exact words of every text |
| Text.WordsOfSpaced | src/services/noteService.js:11 | the words of tokens separated by runs of white space, with white space before and after, are exactly those tokens, in order |
| Text.SpacedForm | src/services/noteService.js:11 | every non-blank text is white-space padding around tokens separated by non-empty white-space runs, so `Text.WordsOfSpaced` covers all of them |
| Text.NonEmpty | src/services/noteService.js:11 | `filter(word => word.length > 0)`: exactly the non-empty pieces |
| Text.JoinLength | src/services/noteService.js:12 | `join(' ')` keeps every word and puts exactly one separator between neighbours: the length is the words' total plus one separator per gap |
| Text.SplitJoin | src/services/noteService.js:11-12 | splitting words joined by single spaces gives back the words |
| Text.WordsOfJoin | src/services/noteService.js:11-12 | the words of a space-joined word list are that list |
| Scenarios.DefaultFolderTwice | src/services/folderService.js:216-243 | two calls return the same folder; the folder table ends unchanged if the user had a default folder and with just the first call's folder added otherwise, so the second call writes nothing; the user ends with exactly one default folder |
| Scenarios.ToggleTwice | src/services/taskService.js:176-187 | toggling twice restores the task table, and the two calls report swapped labels |
| Scenarios.RegisterThenLogin | src/services/authService.js:28-93 | after registering with an unused email, logging in with the same password succeeds with the same user view and token |
| Scenarios.GoogleTwice | src/services/oauthService.js:57-63 | repeating a successful Google sign-in returns the same user, and the user table ends exactly as the first call left it (unchanged, one row linked, or one row added); it grows by one iff neither the Google id nor the email was found before |
| Scenarios.GitHubTwice | src/services/oauthService.js:99-105 | repeating a successful GitHub sign-in returns the same user, and the user table ends exactly as the first call left it (unchanged, one row linked, or one row added); it grows by one iff neither the GitHub id nor the email was found before |
| Scenarios.GoogleLinksPasswordAccount | src/services/oauthService.js:65-75 | a Google sign-in with a password account's email links that account; no account is added and its password still logs in |

## Left out

- Controllers, routes and the app set-up only map errors to HTTP codes
  and build JSON envelopes. They are not part of this model.
- The authentication middleware and `verifyToken` only call the JWT
  library. They are not part of this model.
- JWT signing, the secret and the 24-hour expiry are not modelled. A
  token is its payload.
- bcrypt's hashing and salting are not modelled. The hasher is a
  parameter that satisfies `Auth.Sound`.
- Auth.Register: the stored password is `hasher.hash(password, salt)`.
  That it differs from the plaintext is a property of the library, not
  of the service, and is not stated.
- Passport strategy registration and `serializeUser`/`deserializeUser`
  are library wiring driven by environment variables. They are not part
  of this model.
- `src/utils/database.js`, the Prisma client itself, is not part of this
  model. The store is `Store.Db`.
- Concurrency is not modelled. Every service call is one atomic step, so
  the check-then-write races between separate requests are not
  represented. The transaction in folder deletion is atomic in the model.
- Logging and the `include`/`select` shapes of query results are not
  modelled. Listed notes carry no embedded folder, and folder listings
  carry the note count as `Folders.FolderView.noteCount`.
- Notes.GenerateTitleFromContent: the clock and locale behind the
  fallback title are the `today` parameter. The model states only the
  fallback's prefix and the date text.
- Lengths count Dafny characters (code points), not UTF-16 code units.
  Text outside the Basic Multilingual Plane can therefore measure
  differently than in JavaScript.
- Non-string arguments are not modelled. Absent strings are `""` and an
  absent folder id is 0.
- Store failures other than the unique constraint on users and the
  default-folder write fault (lost connections and the like) are not
  modelled. Neither are the "Failed to get folders" and "Failed to get
  notes" paths that only those failures reach.
- The Prisma schema is not part of this model. Unique columns (user
  email and provider ids) and `@updatedAt` stamping are assumed.
- Notes.CreateNote: a missing folder id is not modelled. Prisma drops an
  `undefined` field from a `where`, so the folder check would then match
  any folder of the user and the failure would come only from the insert.
  The note controller rejects a missing folder id ("Folder ID is
  required") before the service runs, and the controllers are not part of
  this model. Here an absent folder id (0) names no folder and fails the
  folder check.
- Values passed straight to the store are always strings here. An
  `undefined` `name` in register or `displayName` in the Google create
  would be omitted by Prisma, while `""` is stored; the model stores the
  string it is given.
- Store.Db.constructor: row ids start at 1, which is what makes 0 usable
  as "no folder id". This is stated for a fresh store, not kept as a
  per-row invariant.
- OAuth.HandleGoogleCallback: linking also stamps `updatedAt`, under the
  `@updatedAt` assumption above. No other field of the user changes.
- Store.Db.CreateUser: the unique-constraint error is the abbreviated text
  "Unique constraint failed". Prisma's own error (code P2002) also names
  the fields and the call that failed; that text is not modelled.
- The `done(error, null)` callback is the `Err` result. No other
  behaviour of passport's callback is modelled.
