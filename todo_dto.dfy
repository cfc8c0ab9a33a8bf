/** The to-do transfer objects: a task with its server-side children. */
module ToDoDto {
  import opened Opt

  /** A task id (a UUID in the app). */
  type Id = int

  /** A point in time, as an abstract sort key: larger is later. A date text that does not parse
      is represented by a key no larger than any parsed one. */
  type Stamp = int

  datatype State = Todo | InProgress | Done

  datatype ToDo = ToDo(
    id: Id,
    text: string,  // the task's label
    state: State,
    color: Option<string>,
    created: Stamp,
    modified: Option<Stamp>,
    dueDate: Option<string>,
    description: Option<string>,
    parentId: Option<Id>,
    children: seq<ToDo>)
}
