/** The to-do list adapter: the rows the list shows, their view types, the checkbox state cycle
    and the shading of the navigation rows. */
module ToDoAdapter {
  import opened Opt
  import opened KotlinInt
  import opened ToDoDto

  /** One row of the to-do list. The header's subtitle is the formatted time of the root's latest
      update; here it carries that time as a key. */
  datatype Row =
    | Header(rootId: Id, title: string, subtitle: Stamp)
    | Task(dto: ToDo, level: int, selected: bool, hasChildren: bool, isCollapsed: bool)
    | Input
    | Nav(rootId: Id, title: string, shadeIndex: int)

  const ViewHeader: int := 1
  const ViewTask: int := 2
  const ViewInput: int := 3
  const ViewNav: int := 4

  /** The view-type constant of a row: one per variant. */
  function ViewType(row: Row): (t: int)
    ensures ViewHeader <= t <= ViewNav
  {
    match row
    case Header(_, _, _) => ViewHeader
    case Task(_, _, _, _, _) => ViewTask
    case Input => ViewInput
    case Nav(_, _, _) => ViewNav
  }

  /** Two rows share a view type exactly when they are the same variant. */
  lemma ViewTypesDistinct(a: Row, b: Row)
    ensures ViewType(a) == ViewType(b) <==>
      (a.Header? && b.Header?) || (a.Task? && b.Task?) || (a.Input? && b.Input?) || (a.Nav? && b.Nav?)
  {
  }

  /** The state a checkbox click asks for. */
  function NextState(s: State): State
  {
    match s
    case Todo => InProgress
    case InProgress => Done
    case Done => Todo
  }

  /** The click cycle has period three: every click changes the state, and three clicks restore it. */
  lemma NextStateCycle(s: State)
    ensures NextState(s) != s && NextState(NextState(s)) != s
    ensures NextState(NextState(NextState(s))) == s
  {
  }

  /** The four background shades of the navigation rows. */
  datatype Shade = Gray100 | Gray200 | Gray300 | Gray400

  /** The shade of a navigation row, chosen by Kotlin's `shadeIndex % 4`; a negative remainder
      falls through to the last shade. */
  function ShadeOf(shadeIndex: int): Shade
  {
    var m := Rem(shadeIndex, 4);
    if m == 0 then Gray100 else if m == 1 then Gray200 else if m == 2 then Gray300 else Gray400
  }

  /** For the indexes the list hands out (0, 1, 2, ...) the shade repeats every four rows and two
      neighbouring rows never share a shade. */
  lemma ShadesAlternate(i: int)
    requires i >= 0
    ensures ShadeOf(i + 4) == ShadeOf(i)
    ensures ShadeOf(i + 1) != ShadeOf(i)
  {
    var q := Quot(i, 4);
    assert i + 4 == 4 * (q + 1) + Rem(i, 4);
    assert Quot(i + 4, 4) == q + 1;
    if Rem(i, 4) < 3 {
      assert i + 1 == 4 * q + (Rem(i, 4) + 1);
      assert Quot(i + 1, 4) == q;
    } else {
      assert i + 1 == 4 * (q + 1);
      assert Quot(i + 1, 4) == q + 1;
    }
  }

  /** The holder of the rows currently shown. */
  class ToDoListAdapter {
    var items: seq<Row>

    constructor()
      ensures items == []
    {
      items := [];
    }

    /** Replaces the whole row list with `newItems`, in order. */
    method SubmitItems(newItems: seq<Row>)
      modifies this
      ensures items == newItems
    {
      items := [];
      items := items + newItems;
    }

    /** The row at `position`, or `None` outside the list. */
    function GetItem(position: int): (r: Option<Row>)
      reads this
      ensures r.Some? <==> 0 <= position < |items|
      ensures r.Some? ==> r.value == items[position]
    {
      if 0 <= position < |items| then Some(items[position]) else None
    }

    /** The view type of the row at `position`; Kotlin's `items[position]` throws outside the list. */
    function GetItemViewType(position: int): (t: int)
      reads this
      requires 0 <= position < |items|
      ensures GetItem(position) == Some(items[position])
      ensures t == ViewType(items[position])
    {
      ViewType(items[position])
    }
  }
}
