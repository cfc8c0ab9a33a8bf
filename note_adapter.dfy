/** The list of editable notes: how an edit sets a note's status, and which notes count as changed. */
module NoteEditing {
  import opened Opt
  import opened Strings
  import opened NoteDto
  import opened MutableLists

  /** `RecyclerView.NO_POSITION`: the edited row is no longer bound to a position. */
  const NoPosition: int := -1

  /** The status a note gets when its text becomes `newText`, `original` being its text on the server.
      A note without a (non-blank) id is new: empty or created. A saved note is edited unless the
      text is back to the original, or is empty. */
  function StatusAfterEdit(note: Note, newText: string, original: string): (s: NoteStatus)
    ensures s != Deleted
    ensures IsNullOrBlank(note.id) ==> (s == Empty <==> newText == "") && (s == Created <==> newText != "")
    ensures !IsNullOrBlank(note.id) ==>
      (s == Untouched <==> newText == original || newText == "") && (s == Edited <==> s != Untouched)
  {
    if IsNullOrBlank(note.id) then
      if newText == "" then Empty else Created
    else if newText == original then Untouched
    else if newText == "" then Untouched
    else Edited
  }

  /** The note stored after an edit, and whether it changed: it is replaced (new text, new status,
      the secret key) exactly when its text or its status differs. */
  function AfterEdit(note: Note, newText: string, original: string, secretKey: string): (r: (Note, bool))
    ensures r.1 <==> note.content != newText || note.status != StatusAfterEdit(note, newText, original)
    ensures r.1 ==>
      r.0.id == note.id && r.0.content == newText && r.0.key == Some(secretKey) &&
      r.0.status == StatusAfterEdit(note, newText, original) &&
      r.0.created == note.created && r.0.modified == note.modified
    ensures !r.1 ==> r.0 == note
  {
    var status := StatusAfterEdit(note, newText, original);
    if note.content != newText || note.status != status then
      (note.(content := newText, status := status, key := Some(secretKey)), true)
    else (note, false)
  }

  /** The same edit delivered twice changes the note once. */
  lemma AfterEditIdempotent(note: Note, newText: string, original: string, secretKey: string)
    ensures var once := AfterEdit(note, newText, original, secretKey).0;
      AfterEdit(once, newText, original, secretKey) == (once, false)
  {
    var once := AfterEdit(note, newText, original, secretKey).0;
    assert StatusAfterEdit(once, newText, original) == StatusAfterEdit(note, newText, original);
  }

  /** `notes.filter { it.status != UNTOUCHED }`. */
  function ModifiedNotes(notes: seq<Note>): (r: seq<Note>)
    ensures |r| <= |notes|
    ensures forall k :: 0 <= k < |r| ==> r[k].status != Untouched
  {
    if notes == [] then []
    else (if notes[0].status != Untouched then [notes[0]] else []) + ModifiedNotes(notes[1..])
  }

  /** The filter keeps exactly the notes that are not untouched. */
  lemma {:induction false} ModifiedNotesMembers(notes: seq<Note>, n: Note)
    ensures n in ModifiedNotes(notes) <==> n in notes && n.status != Untouched
  {
    if notes != [] {
      ModifiedNotesMembers(notes[1..], n);
      assert notes == [notes[0]] + notes[1..];
    }
  }

  /** The filter keeps list order: it distributes over concatenation. */
  lemma {:induction false} ModifiedNotesConcat(a: seq<Note>, b: seq<Note>)
    ensures ModifiedNotes(a + b) == ModifiedNotes(a) + ModifiedNotes(b)
  {
    if a == [] {
      assert a + b == b;
    } else {
      assert (a + b)[0] == a[0] && (a + b)[1..] == a[1..] + b;
      ModifiedNotesConcat(a[1..], b);
    }
  }

  /** The adapter over the screen's note list. */
  class NoteAdapter {
    const notes: MutableList<Note>
    const secretKey: string

    constructor(notes: MutableList<Note>, secretKey: string)
      ensures this.notes == notes && this.secretKey == secretKey
    {
      this.notes := notes;
      this.secretKey := secretKey;
    }

    /** The text watcher of the row at `position`: `original` is what the screen reports as the
        note's server text; `changed` says whether the note was replaced (and the screen told). */
    method AfterTextChanged(position: int, newText: string, original: string) returns (changed: bool)
      requires position == NoPosition || 0 <= position < |notes.elems|
      modifies notes
      ensures position == NoPosition ==> !changed && notes.elems == old(notes.elems)
      ensures position != NoPosition ==>
        var r := AfterEdit(old(notes.elems)[position], newText, original, secretKey);
        changed == r.1 && notes.elems == old(notes.elems)[position := r.0]
    {
      if position == NoPosition {
        return false;
      }
      var note := notes.elems[position];
      var status := StatusAfterEdit(note, newText, original);
      changed := note.content != newText || note.status != status;
      if changed {
        notes.Set(position, note.(content := newText, status := status, key := Some(secretKey)));
      }
    }

    /** The notes that have something to save, in list order. */
    function GetModifiedNotes(): (r: seq<Note>)
      reads notes
      ensures r == ModifiedNotes(notes.elems)
    {
      ModifiedNotes(notes.elems)
    }
  }
}
