/** The note transfer object and its change-tracking status. */
module NoteDto {
  import opened Opt

  datatype NoteStatus = Untouched | Edited | Created | Deleted | Empty

  datatype Note = Note(
    id: Option<string>,
    content: string,
    key: Option<string>,
    created: Option<string>,
    modified: Option<string>,
    status: NoteStatus)
}
