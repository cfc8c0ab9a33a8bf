/** The notes screen: swipe-to-delete with a queue of deletions, the auto-save pass that picks the
    notes to send and the call for each, the blank note kept on top, and the order of fetched notes. */
module NotesScreen {
  import opened Opt
  import opened Strings
  import opened Sorting
  import opened NoteDto
  import opened MutableLists
  import opened NoteEditing

  /** A server call made by a save pass. */
  datatype Request = CreateNote(note: Note) | EditNote(note: Note) | DeleteNote(note: Note)

  /** Whether a save pass sends a note: not EMPTY, and not an empty note the server never saw. */
  predicate Savable(n: Note)
  {
    !(n.status == Empty || (n.content == "" && n.id.None?))
  }

  /** `filter { savable }`, in order. */
  function NotesToSave(candidates: seq<Note>): (r: seq<Note>)
    ensures |r| <= |candidates|
    ensures forall k :: 0 <= k < |r| ==> Savable(r[k])
  {
    if candidates == [] then []
    else (if Savable(candidates[0]) then [candidates[0]] else []) + NotesToSave(candidates[1..])
  }

  /** The filter keeps exactly the savable notes. */
  lemma {:induction false} NotesToSaveMembers(candidates: seq<Note>, n: Note)
    ensures n in NotesToSave(candidates) <==> n in candidates && Savable(n)
  {
    if candidates != [] {
      NotesToSaveMembers(candidates[1..], n);
      assert candidates == [candidates[0]] + candidates[1..];
    }
  }

  /** The call a note is sent with, chosen by its status; the other statuses send nothing. */
  function RequestFor(n: Note): (r: Option<Request>)
    ensures r.Some? <==> n.status == Created || n.status == Edited || n.status == Deleted
    ensures r.Some? ==> r.value.note == n
    ensures r.Some? ==>
      (r.value.CreateNote? <==> n.status == Created) &&
      (r.value.EditNote? <==> n.status == Edited) &&
      (r.value.DeleteNote? <==> n.status == Deleted)
  {
    match n.status
    case Created => Some(CreateNote(n))
    case Edited => Some(EditNote(n))
    case Deleted => Some(DeleteNote(n))
    case _ => None
  }

  function AsSeq<T>(o: Option<T>): seq<T>
  {
    if o.Some? then [o.value] else []
  }

  /** The calls of a save pass over `toSave`, note by note. */
  function Requests(toSave: seq<Note>): seq<Request>
  {
    if toSave == [] then []
    else Requests(toSave[..|toSave| - 1]) + AsSeq(RequestFor(toSave[|toSave| - 1]))
  }

  /** A call is made exactly for a note whose status asks for it. */
  lemma {:induction false} RequestsMembers(toSave: seq<Note>, r: Request)
    ensures r in Requests(toSave) <==> exists k :: 0 <= k < |toSave| && RequestFor(toSave[k]) == Some(r)
  {
    if toSave != [] {
      var init := toSave[..|toSave| - 1];
      RequestsMembers(init, r);
      if exists k :: 0 <= k < |toSave| && RequestFor(toSave[k]) == Some(r) {
        var k :| 0 <= k < |toSave| && RequestFor(toSave[k]) == Some(r);
        if k < |init| {
          assert init[k] == toSave[k];
        }
      }
      if exists k :: 0 <= k < |init| && RequestFor(init[k]) == Some(r) {
        var k :| 0 <= k < |init| && RequestFor(init[k]) == Some(r);
        assert toSave[k] == init[k];
      }
    }
  }

  /** Every queued deletion is a saved note marked DELETED. */
  predicate QueuedDeletions(deleted: seq<Note>)
  {
    forall k :: 0 <= k < |deleted| ==> deleted[k].status == Deleted && deleted[k].id.Some?
  }

  /** A queued deletion always gives a save pass something to do. */
  lemma DeletionsAreSaved(modified: seq<Note>, deleted: seq<Note>)
    requires QueuedDeletions(deleted) && deleted != []
    ensures NotesToSave(modified + deleted) != []
  {
    var d := deleted[0];
    assert Savable(d);
    assert (modified + deleted)[|modified|] == d;
    NotesToSaveMembers(modified + deleted, d);
  }

  /** The blank note kept on top for typing a new one. */
  function BlankNote(key: Option<string>): Note
  {
    Note(None, "", key, None, None, Created)
  }

  /** `notes.isEmpty() || notes[0].content.isNotEmpty()`. */
  predicate NeedsBlankOnTop(notes: seq<Note>)
  {
    notes == [] || notes[0].content != ""
  }

  /** The list after the blank-note rule: a blank note goes on top unless the top note is empty. */
  function WithBlankOnTop(notes: seq<Note>, key: Option<string>): (r: seq<Note>)
    ensures r != [] && r[0].content == ""
    ensures NeedsBlankOnTop(notes) ==> r == InsertedAt(notes, 0, BlankNote(key))
    ensures !NeedsBlankOnTop(notes) ==> r == notes
  {
    if NeedsBlankOnTop(notes) then [BlankNote(key)] + notes else notes
  }

  /** The rule never stacks blank notes: applying it again changes nothing. */
  lemma WithBlankOnTopIdempotent(notes: seq<Note>, key: Option<string>)
    ensures WithBlankOnTop(WithBlankOnTop(notes, key), key) == WithBlankOnTop(notes, key)
  {
  }

  /** What a swipe of `note` queues: a saved note not yet deleted goes in, marked DELETED. */
  function Tracked(note: Note, key: Option<string>): (r: seq<Note>)
    ensures QueuedDeletions(r)
    ensures r != [] <==> note.id.Some? && note.status != Deleted
    ensures r != [] ==> r == [note.(status := Deleted, key := key)]
  {
    if note.id.Some? && note.status != Deleted then [note.(status := Deleted, key := key)] else []
  }

  /** `a` comes before `b` when sorting newest first by `created`, null read as "". */
  predicate CreatedNotBefore(a: Note, b: Note)
  {
    StrLeq(b.created.GetOr(""), a.created.GetOr(""))
  }

  lemma CreatedNotBeforeIsTotalPreorder()
    ensures TotalPreorder(CreatedNotBefore)
  {
    StrLeqTotalOrder();
  }

  /** `sortedByDescending { it.created ?: "" }`: the same notes, newest first. */
  function NewestFirst(fetched: seq<Note>): (r: seq<Note>)
    ensures multiset(r) == multiset(fetched)
    ensures forall i, j :: 0 <= i < j < |r| ==> StrLeq(r[j].created.GetOr(""), r[i].created.GetOr(""))
  {
    CreatedNotBeforeIsTotalPreorder();
    SortBySorted(fetched, CreatedNotBefore);
    SortBy(fetched, CreatedNotBefore)
  }

  /** `map { it.copy(key = key) }`. */
  function WithKey(notes: seq<Note>, key: Option<string>): (r: seq<Note>)
    ensures |r| == |notes|
    ensures forall k :: 0 <= k < |notes| ==> r[k] == notes[k].(key := key)
  {
    if notes == [] then [] else [notes[0].(key := key)] + WithKey(notes[1..], key)
  }

  /** The index of the first note with id `id`, or `|s|` when there is none. */
  function FirstWithId(s: seq<Note>, id: Option<string>): (k: nat)
    ensures k <= |s| && (k < |s| ==> s[k].id == id)
    ensures forall m :: 0 <= m < k ==> s[m].id != id
  {
    if s == [] then 0
    else if s[0].id == id then 0
    else 1 + FirstWithId(s[1..], id)
  }

  /** The server text the adapter compares an edit with: the content of the first fetched note
      with the same id; "" for a position off the list, a note without a (non-blank) id, or an id
      the server did not send. */
  function OriginalContent(notes: seq<Note>, originals: seq<Note>, idx: int): (c: string)
    ensures !(0 <= idx < |notes|) || IsNullOrBlank(notes[idx].id) ==> c == ""
    ensures 0 <= idx < |notes| && !IsNullOrBlank(notes[idx].id) ==>
      (c != "" ==> exists k :: 0 <= k < |originals| && originals[k].id == notes[idx].id && originals[k].content == c)
    ensures 0 <= idx < |notes| && !IsNullOrBlank(notes[idx].id) &&
            (exists k :: 0 <= k < |originals| && originals[k].id == notes[idx].id) ==>
              exists k :: 0 <= k < |originals| && originals[k].id == notes[idx].id && c == originals[k].content &&
                          forall m :: 0 <= m < k ==> originals[m].id != notes[idx].id
  {
    if !(0 <= idx < |notes|) || IsNullOrBlank(notes[idx].id) then ""
    else
      var k := FirstWithId(originals, notes[idx].id);
      if k < |originals| then originals[k].content else ""
  }

  /** The notes screen and the adapter that edits its list. */
  class NotesActivity {
    const notes: MutableList<Note>
    var deletedNotes: seq<Note>
    var originalNotes: seq<Note>
    const secretKey: Option<string>
    const adapter: NoteAdapter

    /** The adapter edits this screen's list with its key, and the deletion queue holds only saved
        notes marked DELETED. */
    predicate Valid()
      reads this`deletedNotes
    {
      adapter.notes == notes && adapter.secretKey == secretKey.GetOr("") && QueuedDeletions(deletedNotes)
    }

    constructor(secretKey: Option<string>)
      ensures Valid() && this.secretKey == secretKey
      ensures notes.elems == [] && deletedNotes == [] && originalNotes == []
      ensures fresh(notes) && fresh(adapter)
    {
      var list := new MutableList<Note>([]);
      notes := list;
      deletedNotes := [];
      originalNotes := [];
      this.secretKey := secretKey;
      adapter := new NoteAdapter(list, secretKey.GetOr(""));
    }

    /** A swipe on the row at `position`: the note leaves the list, and a saved note not yet
        deleted is queued for deletion on the server. */
    method OnSwiped(position: int)
      requires Valid()
      modifies notes, this`deletedNotes
      ensures Valid()
      ensures !(0 <= position < |old(notes.elems)|) ==>
        notes.elems == old(notes.elems) && deletedNotes == old(deletedNotes)
      ensures 0 <= position < |old(notes.elems)| ==>
        notes.elems == RemovedAt(old(notes.elems), position) &&
        deletedNotes == old(deletedNotes) + Tracked(old(notes.elems)[position], secretKey)
    {
      if position >= 0 && position < |notes.elems| {
        var note := notes.elems[position];
        notes.RemoveAt(position);
        if note.id.Some? && note.status != Deleted {
          deletedNotes := deletedNotes + [note.(status := Deleted, key := secretKey)];
        }
      }
    }

    /** The text of row `position` became `newText`: the adapter updates the note, and when it
        changed the screen writes the same text and key back. */
    method OnTextChanged(position: int, newText: string)
      requires Valid() && (position == NoPosition || 0 <= position < |notes.elems|)
      modifies notes
      ensures Valid()
      ensures position == NoPosition ==> notes.elems == old(notes.elems)
      ensures position != NoPosition ==>
        var original := OriginalContent(old(notes.elems), originalNotes, position);
        notes.elems ==
          old(notes.elems)[position := AfterEdit(old(notes.elems)[position], newText, original, secretKey.GetOr("")).0]
    {
      var original := OriginalContent(notes.elems, originalNotes, position);
      var changed := adapter.AfterTextChanged(position, newText, original);
      if changed {
        notes.Set(position, notes.elems[position].(content := newText, key := Some(secretKey.GetOr(""))));
      }
    }

    /** The auto-save pass: the modified notes and the queued deletions, less those with nothing
        to send, each dispatched by status; then the queue is emptied and a blank note put on top
        if needed. Nothing happens when there is nothing to send. */
    method AutoSaveNotes() returns (requests: seq<Request>)
      requires Valid()
      modifies notes, this`deletedNotes
      ensures Valid() && deletedNotes == []
      ensures var toSave := NotesToSave(ModifiedNotes(old(notes.elems)) + old(deletedNotes));
        requests == Requests(toSave) &&
        notes.elems == (if toSave == [] then old(notes.elems) else WithBlankOnTop(old(notes.elems), secretKey))
    {
      var modified := adapter.GetModifiedNotes() + deletedNotes;
      var toSave := NotesToSave(modified);
      if toSave == [] {
        if deletedNotes != [] {
          DeletionsAreSaved(adapter.GetModifiedNotes(), deletedNotes);
        }
        return [];
      }
      requests := [];
      for i := 0 to |toSave|
        invariant requests == Requests(toSave[..i])
      {
        assert toSave[..i + 1][..i] == toSave[..i];
        var note := toSave[i];
        match note.status {
          case Created => requests := requests + [CreateNote(note)];
          case Edited => requests := requests + [EditNote(note)];
          case Deleted => requests := requests + [DeleteNote(note)];
          case _ =>
        }
      }
      assert toSave[..|toSave|] == toSave;
      deletedNotes := [];
      if notes.elems == [] || notes.elems[0].content != "" {
        notes.AddFirst(BlankNote(secretKey));
      }
    }

    /** The server's notes arrived: the list becomes a blank note followed by the fetched notes,
        newest first, all with the screen's key; the fetched notes are kept as the originals. */
    method OnNotesFetched(fetched: seq<Note>)
      requires Valid()
      modifies notes, this`originalNotes
      ensures Valid()
      ensures notes.elems == [BlankNote(secretKey)] + WithKey(NewestFirst(fetched), secretKey)
      ensures originalNotes == WithKey(fetched, secretKey)
    {
      notes.Clear();
      var sorted := NewestFirst(fetched);
      notes.AddAll(WithKey(sorted, secretKey));
      notes.AddFirst(BlankNote(secretKey));
      originalNotes := WithKey(fetched, secretKey);
    }
  }
}
