/** The values the note manager works with: a note as the client keeps it,
    the record the server lists, the draft behind the note form, and the
    body of a create or update request. */
module Notes {

  type NoteId = string

  /** A note as held in the client's list (`{id, title, tags, content,
      createdAt, updatedAt}`); timestamps are kept as the server's strings. */
  datatype Note = Note(
    id: NoteId, title: string, tags: string, content: string,
    createdAt: string, updatedAt: string)

  /** A record of the `GET /notes` listing; `serverId` is the record's `_id`. */
  datatype NoteRecord = NoteRecord(
    serverId: string, title: string, tags: string, content: string,
    createdAt: string, updatedAt: string)

  /** The note form's values (`newNote`). */
  datatype Draft = Draft(title: string, tags: string, content: string)

  const EmptyDraft := Draft("", "", "")

  /** Which field of the draft an input edits. */
  datatype DraftField = TitleField | TagsField | ContentField

  /** `{...newNote, [field]: value}`. */
  function WithField(d: Draft, field: DraftField, value: string): Draft
  {
    match field
    case TitleField => d.(title := value)
    case TagsField => d.(tags := value)
    case ContentField => d.(content := value)
  }

  /** The JSON body of `POST /notes` and `PUT /notes/{id}`. */
  datatype NoteRequest = NoteRequest(title: string, content: string, tags: string)

  /** A `PUT /notes/{id}` request: the note addressed and the body sent. */
  datatype UpdateRequest = UpdateRequest(id: NoteId, body: NoteRequest)

  /** One listed record as a note: `_id` becomes `id`, every other field is
      carried over as it is. */
  function FromRecord(rec: NoteRecord): (n: Note)
    ensures ToRecord(n) == rec
  {
    Note(rec.serverId, rec.title, rec.tags, rec.content, rec.createdAt, rec.updatedAt)
  }

  /** The inverse renaming, `id` back to `_id`. */
  function ToRecord(n: Note): (rec: NoteRecord)
  {
    NoteRecord(n.id, n.title, n.tags, n.content, n.createdAt, n.updatedAt)
  }

  /** `fetchedNotes.map(...)`: the listed records as notes, one for one and in
      the server's order. */
  function FromRecords(recs: seq<NoteRecord>): (r: seq<Note>)
    ensures |r| == |recs|
    ensures forall k :: 0 <= k < |recs| ==> ToRecord(r[k]) == recs[k]
  {
    seq(|recs|, k requires 0 <= k < |recs| => FromRecord(recs[k]))
  }
}
