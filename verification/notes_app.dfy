/** The note manager (`NotesApp`): the session, the note list, the draft
    behind the note form and the two mode fields, changed by guarded
    handlers. Each network call is a parameter: the reply the server gave
    (or the failure to get one), decided by the caller. */
module NotesApp {
  import opened Wrappers
  import opened Text
  import opened Notes
  import Search

  /** JavaScript truthiness of a value that is `null` or a string: set and
      not the empty string. */
  predicate Truthy(o: Option<string>) {
    o.Some? && o.value != ""
  }

  const Untitled := "Untitled"

  /** The two keys the session is kept under in the browser's storage. */
  const TokenKey := "token"
  const UserKey := "user"

  /** The request a save (create or update) sends, or `None` when the save is
      refused before any request (`SaveRequestSpec` states when). */
  function SaveRequest(token: Option<string>, d: Draft): Option<NoteRequest>
  {
    if !Truthy(token) || (IsBlank(d.title) && IsBlank(d.content)) then None
    else Some(NoteRequest(if d.title == "" then Untitled else d.title, d.content, d.tags))
  }

  /** A save is refused exactly without a token, or when title and content are
      both whitespace only. The title defaults to "Untitled" only when it is
      the empty string (then the content is not blank); content and tags go
      as they are. */
  lemma SaveRequestSpec(token: Option<string>, d: Draft)
    ensures var r := SaveRequest(token, d);
      && (r.None? <==> !Truthy(token) || (AllWhitespace(d.title) && AllWhitespace(d.content)))
      && (r.Some? ==> r.value.content == d.content && r.value.tags == d.tags)
      && (r.Some? && d.title != "" ==> r.value.title == d.title)
      && (r.Some? && d.title == "" ==> r.value.title == Untitled && !AllWhitespace(d.content))
  {
    BlankIffAllWhitespace(d.title);
    BlankIffAllWhitespace(d.content);
  }

  /** What `result?.data?.notes` held in a successful `GET /notes` answer. */
  datatype ListPayload =
    | NoteArray(records: seq<NoteRecord>)
    | NotAnArray      // present and truthy, but not an array
    | NoNotes         // missing, or another falsy value

  /** The outcome of `GET /notes`: an HTTP status with the payload (read only
      when the status is 2xx), or an exception (no connection, or a body that
      is not JSON). */
  datatype ListReply = ListResponse(status: int, payload: ListPayload) | ListThrew

  /** The outcome of `POST`, `PUT` or `DELETE /notes`: the parsed body's
      `success` was true, or it was not (whatever the HTTP status, 401
      included), or the call threw. */
  datatype WriteReply = WriteSucceeded | WriteRefused | WriteThrew

  /** `response.ok`. */
  predicate IsOk(status: int) {
    200 <= status <= 299
  }

  /** The note list a 2xx answer installs: the mapped records, or nothing
      when the payload is missing or not an array. */
  function ListedNotes(p: ListPayload): (r: seq<Note>)
    ensures p.NoteArray? ==>
              |r| == |p.records| && (forall k :: 0 <= k < |r| ==> ToRecord(r[k]) == p.records[k])
    ensures !p.NoteArray? ==> r == []
  {
    if p.NoteArray? then FromRecords(p.records) else []
  }

  /** The session as kept in storage: whatever token and user are set are
      stored under their keys. */
  predicate Stored(token: Option<string>, user: Option<string>, storage: map<string, string>) {
    && (token.Some? ==> TokenKey in storage && storage[TokenKey] == token.value)
    && (user.Some? ==> UserKey in storage && storage[UserKey] == user.value)
  }

  /** `localStorage.getItem('token') || null`. */
  function RestoredToken(storage: map<string, string>): Option<string> {
    if TokenKey in storage && storage[TokenKey] != "" then Some(storage[TokenKey]) else None
  }

  /** `JSON.parse(localStorage.getItem('user')) || null`, the stored user being
      its username. */
  function RestoredUser(storage: map<string, string>): Option<string> {
    if UserKey in storage then Some(storage[UserKey]) else None
  }

  /** A stored session survives a reload: restoring from the storage gives back
      the same user and (truthy) token. */
  lemma ReloadRestoresSession(token: Option<string>, user: Option<string>, storage: map<string, string>)
    requires Stored(token, user, storage) && Truthy(token) && user.Some?
    ensures RestoredToken(storage) == token && RestoredUser(storage) == user
  {
  }

  class NotesApp {
    var user: Option<string>          // `{ username }`, kept as the username
    var token: Option<string>
    var notes: seq<Note>
    var searchTerm: string
    var isCreating: bool
    var editingId: Option<NoteId>
    var draft: Draft                  // `newNote`
    var storage: map<string, string>  // `localStorage`

    /** The form is never both creating a note and editing one. */
    ghost predicate ModesExclusive()
      reads this
    {
      !(isCreating && Truthy(editingId))
    }

    ghost predicate Valid()
      reads this
    {
      ModesExclusive() && Stored(token, user, storage)
    }

    /** After a logout: no session, no notes, an empty draft, idle. */
    ghost predicate SignedOut()
      reads this
    {
      user == None && token == None && notes == [] &&
      !isCreating && editingId == None && draft == EmptyDraft
    }

    /** The first render: the session restored from storage, no notes, an
        empty search, an empty draft, idle. */
    constructor (stored: map<string, string>)
      ensures Valid()
      ensures token == RestoredToken(stored) && user == RestoredUser(stored)
      ensures notes == [] && searchTerm == "" && draft == EmptyDraft
      ensures !isCreating && editingId == None && storage == stored
    {
      user := RestoredUser(stored);
      token := RestoredToken(stored);
      notes := [];
      searchTerm := "";
      isCreating := false;
      editingId := None;
      draft := EmptyDraft;
      storage := stored;
    }

    /** The notes on screen: those the search term selects, in list order. */
    function Displayed(): (r: seq<Note>)
      reads this
      ensures Search.IsSubsequence(r, notes)
      ensures searchTerm == "" ==> r == notes
    {
      Search.FilterIsSubsequence(notes, searchTerm);
      Search.FilterEmptyTerm(notes);
      Search.Filter(notes, searchTerm)
    }

    /** `handleAuthSuccess`: the new session is set and stored; the notes,
        draft and modes are left as they are. */
    method AuthSuccess(newToken: string, username: string)
      requires Valid()
      modifies this
      ensures Valid()
      ensures user == Some(username) && token == Some(newToken)
      ensures storage == old(storage)[TokenKey := newToken][UserKey := username]
      ensures unchanged(this`notes, this`searchTerm, this`isCreating, this`editingId, this`draft)
    {
      user := Some(username);
      token := Some(newToken);
      storage := storage[TokenKey := newToken];
      storage := storage[UserKey := username];
    }

    /** `handleLogout`: tells the server when there is a token (a failure there
        is ignored), then clears the session, the notes, the draft and both
        modes, and removes both stored keys. */
    method Logout() returns (notifyServer: bool)
      requires Valid()
      modifies this
      ensures Valid() && SignedOut()
      ensures notifyServer == Truthy(old(token))
      ensures storage == old(storage) - {TokenKey, UserKey}
      ensures unchanged(this`searchTerm)
    {
      notifyServer := Truthy(token);
      user := None;
      token := None;
      notes := [];
      storage := storage - {TokenKey, UserKey};
      isCreating := false;
      editingId := None;
      draft := EmptyDraft;
    }

    /** `fetchNotes`: without a token the list is emptied and nothing is asked.
        Otherwise a 2xx answer replaces the list by the listed notes (empty
        when the payload is missing or not an array); a 401 logs out (and
        `sessionExpired` is set, and the logout tells the server, since the
        token is still set); any other status or an exception leaves
        everything as it was. */
    method FetchNotes(reply: ListReply) returns (sessionExpired: bool, notifyServer: bool)
      requires Valid()
      modifies this
      ensures Valid()
      ensures sessionExpired <==> Truthy(old(token)) && reply.ListResponse? &&
                                  !IsOk(reply.status) && reply.status == 401
      ensures notifyServer <==> sessionExpired
      ensures sessionExpired ==> SignedOut() && storage == old(storage) - {TokenKey, UserKey} &&
                                 unchanged(this`searchTerm)
      ensures !Truthy(old(token)) ==> notes == []
      ensures Truthy(old(token)) && reply.ListResponse? && IsOk(reply.status) ==>
                notes == ListedNotes(reply.payload)
      ensures !sessionExpired ==>
                unchanged(this`user, this`token, this`searchTerm, this`isCreating,
                          this`editingId, this`draft, this`storage)
      ensures Truthy(old(token)) && (reply.ListThrew? || (!IsOk(reply.status) && reply.status != 401)) ==>
                unchanged(this)
    {
      sessionExpired := false;
      notifyServer := false;
      if !Truthy(token) {
        notes := [];
        return;
      }
      match reply {
        case ListThrew =>
        case ListResponse(status, payload) =>
          if IsOk(status) {
            notes := ListedNotes(payload);
          } else if status == 401 {
            notifyServer := Logout();
            sessionExpired := true;
          }
      }
    }

    /** `handleCreateNote`: sends `SaveRequest(token, draft)` when there is one.
        Only a successful answer changes anything: the draft is emptied, the
        form leaves creating mode and a list refresh is asked for. A refused
        save, a refused or failed request leaves every field as it was. */
    method CreateNote(reply: WriteReply) returns (sent: Option<NoteRequest>, refresh: bool)
      requires Valid()
      modifies this
      ensures Valid()
      ensures sent == SaveRequest(old(token), old(draft))
      ensures refresh <==> sent.Some? && reply.WriteSucceeded?
      ensures refresh ==> draft == EmptyDraft && !isCreating &&
                          unchanged(this`user, this`token, this`notes, this`searchTerm,
                                    this`editingId, this`storage)
      ensures !refresh ==> unchanged(this)
    {
      sent := SaveRequest(token, draft);
      refresh := sent.Some? && reply.WriteSucceeded?;
      if refresh {
        draft := EmptyDraft;
        isCreating := false;
      }
    }

    /** `handleUpdateNote`: as a create, with the extra guard that a note is
        being edited; the request addresses that note. A successful answer
        empties the draft and leaves editing mode. */
    method UpdateNote(reply: WriteReply) returns (sent: Option<UpdateRequest>, refresh: bool)
      requires Valid()
      modifies this
      ensures Valid()
      ensures sent.Some? <==> Truthy(old(editingId)) && SaveRequest(old(token), old(draft)).Some?
      ensures sent.Some? ==> sent.value.id == old(editingId).value &&
                             sent.value.body == SaveRequest(old(token), old(draft)).value
      ensures refresh <==> sent.Some? && reply.WriteSucceeded?
      ensures refresh ==> draft == EmptyDraft && editingId == None &&
                          unchanged(this`user, this`token, this`notes, this`searchTerm,
                                    this`isCreating, this`storage)
      ensures !refresh ==> unchanged(this)
    {
      var body := SaveRequest(token, draft);
      sent := if Truthy(editingId) && body.Some? then Some(UpdateRequest(editingId.value, body.value)) else None;
      refresh := sent.Some? && reply.WriteSucceeded?;
      if refresh {
        draft := EmptyDraft;
        editingId := None;
      }
    }

    /** `handleDeleteNote`: asks for the deletion only with a token and the
        user's confirmation. It never changes the state itself: a successful
        answer only asks for a list refresh. */
    method DeleteNote(id: NoteId, confirmed: bool, reply: WriteReply) returns (sent: Option<NoteId>, refresh: bool)
      ensures sent.Some? <==> Truthy(token) && confirmed
      ensures sent.Some? ==> sent.value == id
      ensures refresh <==> sent.Some? && reply.WriteSucceeded?
    {
      sent := None;
      refresh := false;
      if !Truthy(token) {
        return;
      }
      if confirmed {
        sent := Some(id);
        refresh := reply.WriteSucceeded?;
      }
    }

    /** `handleEditNote`: the draft takes the note's title, tags and content,
        and the form edits that note (never creating at the same time). */
    method EditNote(n: Note)
      requires Valid()
      modifies this
      ensures Valid()
      ensures draft == Draft(n.title, n.tags, n.content)
      ensures editingId == Some(n.id) && !isCreating
      ensures unchanged(this`user, this`token, this`notes, this`searchTerm, this`storage)
    {
      draft := Draft(n.title, n.tags, n.content);
      editingId := Some(n.id);
      isCreating := false;
    }

    /** `handleCancel`: empties the draft and leaves both modes. */
    method Cancel()
      requires Valid()
      modifies this
      ensures Valid()
      ensures draft == EmptyDraft && !isCreating && editingId == None
      ensures unchanged(this`user, this`token, this`notes, this`searchTerm, this`storage)
    {
      draft := EmptyDraft;
      isCreating := false;
      editingId := None;
    }

    /** The New Note button: disabled while creating or editing, otherwise it
        enters creating mode. */
    method NewNote() returns (enabled: bool)
      requires Valid()
      modifies this
      ensures Valid()
      ensures enabled <==> !old(isCreating) && !Truthy(old(editingId))
      ensures enabled ==> isCreating
      ensures !enabled ==> unchanged(this)
      ensures unchanged(this`user, this`token, this`notes, this`searchTerm,
                        this`editingId, this`draft, this`storage)
    {
      enabled := !isCreating && !Truthy(editingId);
      if enabled {
        isCreating := true;
      }
    }

    /** Typing into the title, tags or content input. */
    method EditDraft(field: DraftField, value: string)
      requires Valid()
      modifies this`draft
      ensures Valid()
      ensures draft == WithField(old(draft), field, value)
    {
      draft := WithField(draft, field, value);
    }

    /** Typing into the search box. */
    method SetSearchTerm(term: string)
      requires Valid()
      modifies this`searchTerm
      ensures Valid()
      ensures searchTerm == term
    {
      searchTerm := term;
    }
  }
}
