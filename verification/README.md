# catatanku — a verified model of the note manager and its sign-in form

Catatanku is a browser note-taking app. This project models its two central
components in Dafny and proves properties about them.

- **`NotesApp`** holds the session (user and token, mirrored in the browser's
  storage), the note list fetched from the server, the search term, and the
  draft behind the note form. It also holds the two exclusive modes:
  creating a new note, or editing an existing one.
  - Its handlers sign in and out, list notes, and create, update and delete
    notes.
  - It filters the list by a case-insensitive search.
  - It extracts `#tags` from a note's raw tags string.
- **`AuthModal`** is the login / registration form: four fields, a per-field
  error map, and an in-flight flag. Validation rules decide whether a request
  is sent at all; the mode decides the request body; the server's answer
  decides what the parent is told.

The model is imperative where the components change state. Each component is
a class whose methods change the fields the handler changes. Pure code stays
pure: `parseTags`, the search filter, the validation rule table and the save
guard are functions with lemmas.

Every network exchange is a parameter: the reply the server gave, or the
failure to get one. A successful write returns `refresh`, and the re-fetch is
a separate `FetchNotes` call.

Files:

- `wrappers.dfy`: `Option`.
- `text.dfy`: JavaScript's `trim`, blank test, `\s`, ASCII `toLowerCase`,
  `includes`, and UTF-16 `length`.
- `tags.dfy`: `parseTags`.
- `notes.dfy`: note values and record mapping.
- `search.dfy`: the search filter.
- `notes_app.dfy`: the `NotesApp` class.
- `auth_modal.dfy`: the `AuthModal` class and its validation.

## Model

| member | source | states |
|---|---|---|
| Text.TrimStartSpec | src/components/NotesApp.js:212 | the leading half of `trim()` keeps a suffix of the input, strips only whitespace, and leaves no whitespace at the front |
| Text.TrimEndSpec | src/components/NotesApp.js:212 | the trailing half of `trim()` keeps a prefix, strips only whitespace, and leaves no whitespace at the end |
| Text.TrimStartEmptyIff | src/components/NotesApp.js:212 | stripping leading whitespace leaves nothing exactly when the input is all whitespace |
| Text.BlankIffAllWhitespace | src/components/NotesApp.js:212 | `!s.trim()` holds exactly when every character is ECMAScript whitespace, the empty string included |
| Text.ToLower | src/components/NotesApp.js:318 | the result has the input's length and no upper-case ASCII letter; every other character is kept in place, and each upper-case letter becomes the lower-case letter at the same alphabet position |
| Text.ToLowerFixedIff | src/components/NotesApp.js:318 | lower-casing leaves a string unchanged exactly when it has no upper-case ASCII letter |
| Text.ToLowerIdempotent | src/components/NotesApp.js:318 | lower-casing twice equals lower-casing once |
| Text.IncludesEmpty | src/components/NotesApp.js:320-322 | every string includes the empty string |
| Text.Utf16Length | src/components/AuthModal.js:50 | `length` counts UTF-16 code units: between the number of characters and twice that |
| Tags.RunEnd | src/components/NotesApp.js:315 | the greedy `+` stops at the first character that is not a tag character, or at the end |
| Tags.ScanOrdered | src/components/NotesApp.js:315 | the global match yields non-empty, in-bounds matches that do not overlap, in left-to-right order |
| Tags.ScanSound | src/components/NotesApp.js:315 | every match starts with `#` and a tag character and extends as far as tag characters go |
| Tags.ScanComplete | src/components/NotesApp.js:315 | a position starts a match exactly when a `#` there is followed by a tag character |
| Tags.ParseTags | src/components/NotesApp.js:315 | one tag per match; each is `#` followed by one or more tag characters |
| Tags.ParseTagsShape | src/components/NotesApp.js:315 | each tag is the exact slice of the input at its match and cannot be extended by a following tag character |
| Tags.ParseTagsEmptyIff | src/components/NotesApp.js:315 | falling back to an empty list: the result is empty exactly when no `#` is followed by a tag character |
| Tags.ScanShift | src/components/NotesApp.js:315 | matching a suffix after a prefix gives that suffix's matches shifted by the prefix length |
| Tags.ParseJoinedTags | src/components/NotesApp.js:315 | extracting tags from well-formed tags joined by spaces gives back exactly those tags, duplicates and order included |
| Tags.ParseExample | src/components/NotesApp.js:315 | "#home #urgent #home" yields its three tags in order |
| Notes.FromRecord | src/components/NotesApp.js:184-191 | renaming `_id` to `id` and copying the other fields loses nothing: mapping back gives the record |
| Notes.FromRecords | src/components/NotesApp.js:184-191 | the listing maps one note per record, in the server's order |
| Search.KeepIsSubsequence | src/components/NotesApp.js:317 | `Array.prototype.filter` returns a subsequence of its input, for any callback |
| Search.KeepCounts | src/components/NotesApp.js:317 | `filter` keeps every occurrence of an accepted element and none of a rejected one |
| Search.KeepAppend | src/components/NotesApp.js:317 | `filter` distributes over concatenation |
| Search.KeepAll | src/components/NotesApp.js:317 | a callback that accepts every element keeps the array as it is |
| Search.KeepSameTest | src/components/NotesApp.js:317 | two callbacks that agree everywhere filter alike |
| Search.KeepIdempotent | src/components/NotesApp.js:317 | filtering twice with the same callback equals filtering once |
| Search.FilterIsSubsequence | src/components/NotesApp.js:317-324 | the notes shown are a subsequence of the note list: original order is kept |
| Search.FilterCounts | src/components/NotesApp.js:317-324 | a matching note keeps all its occurrences; any other note has none |
| Search.FilterMembership | src/components/NotesApp.js:317-324 | a note is shown exactly when it is in the list and its title, content or tags include the term, ignoring case |
| Search.FilterAppend | src/components/NotesApp.js:317-324 | filtering a concatenation filters each part |
| Search.FilterEmptyTerm | src/components/NotesApp.js:317-324 | an empty search shows every note, in order |
| Search.FilterIgnoresTermCase | src/components/NotesApp.js:318 | a term and its lower-cased form select the same notes |
| Search.FilterIdempotent | src/components/NotesApp.js:317-324 | filtering twice by the same term equals filtering once |
| NotesApp.SaveRequestSpec | src/components/NotesApp.js:212-225 | a save sends no request exactly when there is no token, or title and content are both whitespace-only; content and tags are sent unchanged; only an empty title becomes "Untitled" |
| NotesApp.ListedNotes | src/components/NotesApp.js:171-191 | a 2xx answer installs one note per listed record, or an empty list when `notes` is missing or not an array |
| NotesApp.ReloadRestoresSession | src/components/NotesApp.js:112-113 | a session written to storage is restored unchanged after a reload |
| NotesApp.NotesApp.constructor | src/components/NotesApp.js:112-124 | the first render restores user and token from storage; everything else starts empty and idle |
| NotesApp.NotesApp.Displayed | src/components/NotesApp.js:317-324 | the notes shown are a subsequence of the note list, and all of it when the search is empty |
| NotesApp.NotesApp.AuthSuccess | src/components/NotesApp.js:130-136 | sets and stores the new session; notes, draft and modes are untouched |
| NotesApp.NotesApp.Logout | src/components/NotesApp.js:138-159 | the server is told only when there is a token; afterwards session, notes, draft and modes are cleared and both storage keys removed |
| NotesApp.NotesApp.FetchNotes | src/components/NotesApp.js:163-201 | no token empties the list; 2xx installs the listed notes; 401 logs out, and that logout tells the server; any other status or an exception changes nothing |
| NotesApp.NotesApp.CreateNote | src/components/NotesApp.js:211-242 | sends `SaveRequest`; only a successful answer empties the draft, leaves creating mode and asks for a refresh; otherwise nothing changes |
| NotesApp.NotesApp.UpdateNote | src/components/NotesApp.js:244-275 | as a create, but only while a note is being edited, and addressed to it; success empties the draft and leaves editing mode |
| NotesApp.NotesApp.DeleteNote | src/components/NotesApp.js:277-299 | asks the server only with a token and the user's confirmation; success asks for a refresh and nothing else |
| NotesApp.NotesApp.EditNote | src/components/NotesApp.js:303-307 | the draft takes the note's fields and the form edits that note, never creating at the same time |
| NotesApp.NotesApp.Cancel | src/components/NotesApp.js:309-313 | empties the draft and leaves both modes |
| NotesApp.NotesApp.NewNote | src/components/NotesApp.js:401-404 | the button works only when neither creating nor editing, and then enters creating mode |
| NotesApp.NotesApp.EditDraft | src/components/NotesApp.js:423-448 | an input changes its own draft field and nothing else |
| NotesApp.NotesApp.SetSearchTerm | src/components/NotesApp.js:397-398 | the search box sets the search term |
| AuthModal.With | src/components/AuthModal.js:19-24 | the named field takes the value; every other field is kept |
| AuthModal.EmailShapeIsPattern | src/components/AuthModal.js:44 | the computed e-mail check agrees with `/\S+@\S+\.\S+/.test` on every string, in both directions |
| AuthModal.ErrorMessages | src/components/AuthModal.js:34-72 | each failing rule shows its own message: a blank username, a blank or malformed e-mail, a missing or short password, a missing or different confirmation |
| AuthModal.ShortPasswordExample | src/components/AuthModal.js:48-52 | registering with the password "abc" shows "Password minimal 6 karakter" |
| AuthModal.NoErrorsIff | src/components/AuthModal.js:70-71 | validation passes exactly when no field fails |
| AuthModal.NameRule | src/components/AuthModal.js:38-40 | the username fails exactly when it is all whitespace |
| AuthModal.EmailRule | src/components/AuthModal.js:42-46 | when registering, the e-mail passes exactly when it matches the pattern |
| AuthModal.PasswordRule | src/components/AuthModal.js:48-58 | when registering, the password passes exactly when it has at least 6 UTF-16 code units; given that, the confirmation passes exactly when it equals the password |
| AuthModal.RegisterAcceptsIff | src/components/AuthModal.js:37-58 | registration passes exactly when the username is not blank, the e-mail matches, the password has at least 6 code units and the confirmation equals it |
| AuthModal.LoginAcceptsIff | src/components/AuthModal.js:60-68 | login passes exactly when the username is not blank and the password is not empty; e-mail and confirmation never fail |
| AuthModal.RequestBodyDeterminedBy | src/components/AuthModal.js:85-95 | two forms give the same request exactly when they agree on username and password, and when registering also on the e-mail |
| AuthModal.RequestIgnoresConfirmation | src/components/AuthModal.js:85-95 | the confirmation never reaches the server, and a login does not send the e-mail |
| AuthModal.AuthModal.constructor | src/components/AuthModal.js:8-17 | the form starts with empty fields, no errors, hidden passwords, not in flight |
| AuthModal.AuthModal.HandleInputChange | src/components/AuthModal.js:19-32 | only the named field changes; its error is blanked only when one is shown |
| AuthModal.AuthModal.ValidateForm | src/components/AuthModal.js:34-72 | replaces the shown errors with the rule table's error map and reports whether it is empty |
| AuthModal.AuthModal.ResetForm | src/components/AuthModal.js:134-144 | empties the fields and errors and hides both passwords |
| AuthModal.AuthModal.Submit | src/components/AuthModal.js:74-95 | does nothing while in flight (the button is disabled); otherwise validates, and only on success sends the mode's body and goes in flight |
| AuthModal.AuthModal.ReceiveReply | src/components/AuthModal.js:97-131 | registration success switches to login; login success with data signs in and resets the form; anything else changes nothing; the flight always ends |

Behaviour the model takes from the code as written:

- Only `fetchNotes` treats HTTP 401 as an expired session. A 401 on create,
  update or delete is just a refused write (the handlers read only the body's
  `success`).
- A title of spaces is sent as it is. Only the empty title becomes
  "Untitled" (`title || 'Untitled'`).
- The e-mail check requires a `.` after the `@`; it is not a bare
  `local@domain` shape.
- A note id or token that is the empty string counts as unset
  (JavaScript truthiness).

## Left out

- HTTP transport, JSON encoding of request and response bodies, headers,
  and `API_BASE_URL` are out of scope. Each reply is a parameter of the
  handler that receives it.
- `alert`, `console.error` and the text of server messages: they change no
  state.
- `window.confirm` becomes the `confirmed` parameter of `DeleteNote`.
- Asynchrony and interleaving are not modelled. Each handler runs to
  completion with the reply it is given. The re-fetch after a successful
  write is not awaited in the code; here it is a separate `FetchNotes` call
  the caller makes when `refresh` is set. The effect that fetches when the
  token changes is also just a call to `FetchNotes`.
- A reply that arrives after a logout: the code applies it, because
  `fetchNotes` tests the token (NotesApp.js line 164) before it awaits the
  reply, and it then installs the listing (line 193) whatever has happened
  since. The model cannot express this, because each handler receives its
  reply in the same step as its guard. A `FetchNotes` after `Logout` here
  always leaves the list empty.
- Logout's `POST /auth/logout`: only whether it is made is modelled
  (`notifyServer`), since its outcome is ignored.
- `RichTextEditor`, the DOM, the JSX layout, `Header.js` and `Footer.js` are
  not part of this model; the content is an opaque string.
- The modal's `isOpen`, `onClose`, the parent's `authMode` and
  `showAuthModal`, and the show-password toggles are not modelled.
  `SwitchToLogin` and `SignedIn` are the signals the parent receives.
- The Save button's choice between update and create (NotesApp.js line
  460) is left to the caller, which calls `UpdateNote` or `CreateNote`.
- The stored user is kept as its username. A malformed stored JSON value,
  which throws on the first render, is not modelled.
- Records missing fields in the listing are not modelled: every field is a
  string.
- `toLowerCase` is modelled for ASCII letters only. Non-ASCII letters are
  compared as they are.
- The guest view (rendering when no user is set) is not modelled.
