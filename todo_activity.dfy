/** The to-do screen's view state: server tasks with local overrides on top, the flattening of the
    selected root's tree into rows, the collapsed set, and the selection kept across refreshes.

    Walks that follow pending (not yet confirmed) tasks cannot be bounded by the shape of the
    server tree, because a pending task may itself have pending children; they carry a `fuel`
    bound on the depth they descend. */
module ToDoScreen {
  import opened Opt
  import opened Strings
  import opened Sorting
  import opened MutableLists
  import opened ToDoDto
  import opened ToDoAdapter

  // ---------------------------------------------------------------------------
  // Local overrides
  // ---------------------------------------------------------------------------

  /** The local edits shown on top of the server's data until the server confirms them. A stored
      `None` description reads like a missing one. */
  datatype Overrides = Overrides(
    states: map<Id, State>,
    labels: map<Id, string>,
    descriptions: map<Id, Option<string>>,
    modified: map<Id, Stamp>)

  const NoOverrides: Overrides := Overrides(map[], map[], map[], map[])

  /** The task as shown: each overridden field replaced, everything else (id, parent, children,
      colour, dates) as the server sent it. */
  function ApplyOverrides(o: Overrides, d: ToDo): (r: ToDo)
    ensures r.id == d.id && r.parentId == d.parentId && r.children == d.children
    ensures r.color == d.color && r.created == d.created && r.dueDate == d.dueDate
    ensures r.state == (if d.id in o.states then o.states[d.id] else d.state)
    ensures r.text == (if d.id in o.labels then o.labels[d.id] else d.text)
    ensures r.description ==
      (if d.id in o.descriptions && o.descriptions[d.id].Some? then o.descriptions[d.id] else d.description)
    ensures r.modified == (if d.id in o.modified then Some(o.modified[d.id]) else d.modified)
  {
    var s := if d.id in o.states && o.states[d.id] != d.state then d.(state := o.states[d.id]) else d;
    var l := if d.id in o.labels && o.labels[d.id] != d.text then s.(text := o.labels[d.id]) else s;
    var e := if d.id in o.descriptions && o.descriptions[d.id].Some? && o.descriptions[d.id] != d.description
      then l.(description := o.descriptions[d.id]) else l;
    if d.id in o.modified && Some(o.modified[d.id]) != d.modified then e.(modified := Some(o.modified[d.id])) else e
  }

  /** Applying the overrides a second time changes nothing. */
  lemma ApplyOverridesIdempotent(o: Overrides, d: ToDo)
    ensures ApplyOverrides(o, ApplyOverrides(o, d)) == ApplyOverrides(o, d)
  {
  }

  /** Without overrides a task is shown as the server sent it. */
  lemma NoOverridesShowServer(d: ToDo)
    ensures ApplyOverrides(NoOverrides, d) == d
  {
  }

  /** The overrides with every entry for `id` removed. */
  function Without(o: Overrides, id: Id): Overrides
  {
    Overrides(o.states - {id}, o.labels - {id}, o.descriptions - {id}, o.modified - {id})
  }

  /** Once a task's overrides are cleared it is shown as the server sent it, and every other task
      is shown as before. */
  lemma ClearedShowsServer(o: Overrides, id: Id, d: ToDo)
    ensures ApplyOverrides(Without(o, id), d) == (if d.id == id then d else ApplyOverrides(o, d))
  {
  }

  // ---------------------------------------------------------------------------
  // Children: server children merged with pending tasks, newest first
  // ---------------------------------------------------------------------------

  /** Tasks created locally and not yet confirmed, per parent id, in the order the parents were
      first used (Kotlin's insertion-ordered map). */
  type Pending = seq<(Id, seq<ToDo>)>

  /** `newTasksByRoot[id] ?: emptyList()`. */
  function PendingFor(pending: Pending, id: Id): seq<ToDo>
  {
    if pending == [] then []
    else if pending[0].0 == id then pending[0].1
    else PendingFor(pending[1..], id)
  }

  /** `newTasksByRoot.getOrPut(key) { mutableListOf() }.add(t)`: appends `t` to the list of `key`,
      opening a list at the end of the map when `key` has none. */
  function AppendPending(pending: Pending, key: Id, t: ToDo): (r: Pending)
    ensures forall id :: PendingFor(r, id) == if id == key then PendingFor(pending, id) + [t] else PendingFor(pending, id)
  {
    if pending == [] then [(key, [t])]
    else if pending[0].0 == key then [(key, pending[0].1 + [t])] + pending[1..]
    else [pending[0]] + AppendPending(pending[1..], key, t)
  }

  /** The descending creation order (`sortedByDescending { created }`). */
  predicate NewerFirst(a: ToDo, b: ToDo)
  {
    a.created >= b.created
  }

  lemma NewerFirstIsTotalPreorder()
    ensures TotalPreorder(NewerFirst)
  {
  }

  /** Both lists together, newest first; tasks created at the same time keep their order. */
  function MergeAndSortByCreatedDesc(a: seq<ToDo>, b: seq<ToDo>): (r: seq<ToDo>)
    ensures multiset(r) == multiset(a + b)
    ensures forall i, j :: 0 <= i < j < |r| ==> r[i].created >= r[j].created
  {
    NewerFirstIsTotalPreorder();
    SortBySorted(a + b, NewerFirst);
    SortBy(a + b, NewerFirst)
  }

  /** A task's children as the tree shows them. */
  function Kids(pending: Pending, d: ToDo): seq<ToDo>
  {
    MergeAndSortByCreatedDesc(d.children, PendingFor(pending, d.id))
  }

  // ---------------------------------------------------------------------------
  // Flattening the tree into rows
  // ---------------------------------------------------------------------------

  /** What the flattening reads besides the tasks themselves. */
  datatype View = View(overrides: Overrides, pending: Pending, collapsed: set<Id>, selectedParent: Option<Id>)

  /** The row a task gets at a given depth. */
  function TaskRowOf(v: View, d: ToDo, level: int): Row
  {
    Task(ApplyOverrides(v.overrides, d), level, v.selectedParent == Some(d.id),
         Kids(v.pending, d) != [], d.id in v.collapsed)
  }

  /** One row per task of `list`, at depth `level`. */
  function TaskRows(v: View, list: seq<ToDo>, level: int): (rows: seq<Row>)
    ensures |rows| == |list| && forall i :: 0 <= i < |list| ==> rows[i] == TaskRowOf(v, list[i], level)
  {
    if list == [] then [] else [TaskRowOf(v, list[0], level)] + TaskRows(v, list[1..], level)
  }

  /** The rows of `list` at depth `level`: each task's row, followed by the rows of its children
      when it has children and is not collapsed. */
  function Flatten(v: View, list: seq<ToDo>, level: int, fuel: nat): seq<Row>
    decreases fuel, |list|
  {
    if list == [] then []
    else
      var d := list[0];
      var kids := Kids(v.pending, d);
      if kids != [] && d.id !in v.collapsed && fuel > 0
      then [TaskRowOf(v, d, level)] + Flatten(v, kids, level + 1, fuel - 1) + Flatten(v, list[1..], level, fuel)
      else [TaskRowOf(v, d, level)] + Flatten(v, list[1..], level, fuel)
  }

  /** A task row at depth `level` or deeper, marked selected exactly when it is the selected parent
      and collapsed exactly when its id is in the collapsed set. */
  predicate RowAtOrBelow(r: Row, v: View, level: int)
  {
    r.Task? && r.level >= level && r.selected == (v.selectedParent == Some(r.dto.id)) &&
    r.isCollapsed == (r.dto.id in v.collapsed)
  }

  predicate RowsAtOrBelow(rows: seq<Row>, v: View, level: int)
  {
    forall k :: 0 <= k < |rows| ==> RowAtOrBelow(rows[k], v, level)
  }

  lemma RowsAtOrBelowConcat(a: seq<Row>, b: seq<Row>, v: View, level: int)
    requires RowsAtOrBelow(a, v, level) && RowsAtOrBelow(b, v, level)
    ensures RowsAtOrBelow(a + b, v, level)
  {
    forall k | 0 <= k < |a + b|
      ensures RowAtOrBelow((a + b)[k], v, level)
    {
      if k >= |a| {
        assert (a + b)[k] == b[k - |a|];
      }
    }
  }

  /** Every flattened row is a task row at depth `level` or deeper, with its selected and collapsed
      flags as the view says. */
  lemma {:induction false} FlattenRows(v: View, list: seq<ToDo>, level: int, fuel: nat)
    ensures RowsAtOrBelow(Flatten(v, list, level, fuel), v, level)
    decreases fuel, |list|
  {
    if list != [] {
      var d := list[0];
      var head := [TaskRowOf(v, d, level)];
      var rest := Flatten(v, list[1..], level, fuel);
      assert RowAtOrBelow(head[0], v, level);
      FlattenRows(v, list[1..], level, fuel);
      if Kids(v.pending, d) != [] && d.id !in v.collapsed && fuel > 0 {
        var shown := Flatten(v, Kids(v.pending, d), level + 1, fuel - 1);
        FlattenRows(v, Kids(v.pending, d), level + 1, fuel - 1);
        RowsDeeper(shown, v, level);
        RowsAtOrBelowConcat(head, shown, v, level);
        RowsAtOrBelowConcat(head + shown, rest, v, level);
      } else {
        RowsAtOrBelowConcat(head, rest, v, level);
      }
    }
  }

  lemma RowsDeeper(rows: seq<Row>, v: View, level: int)
    requires RowsAtOrBelow(rows, v, level + 1)
    ensures RowsAtOrBelow(rows, v, level)
  {
    forall k | 0 <= k < |rows|
      ensures RowAtOrBelow(rows[k], v, level)
    {
      assert RowAtOrBelow(rows[k], v, level + 1);
    }
  }

  /** The task rows of `rows` at exactly depth `level`, in order. */
  function AtLevel(rows: seq<Row>, level: int): seq<Row>
  {
    if rows == [] then []
    else (if rows[0].Task? && rows[0].level == level then [rows[0]] else []) + AtLevel(rows[1..], level)
  }

  lemma {:induction false} AtLevelConcat(a: seq<Row>, b: seq<Row>, level: int)
    ensures AtLevel(a + b, level) == AtLevel(a, level) + AtLevel(b, level)
    decreases |a|
  {
    if a != [] {
      assert (a + b)[0] == a[0];
      assert (a + b)[1..] == a[1..] + b;
      AtLevelConcat(a[1..], b, level);
      assert AtLevel(a + b, level) == (if a[0].Task? && a[0].level == level then [a[0]] else []) + AtLevel(a[1..] + b, level);
    } else {
      assert a + b == b;
    }
  }

  lemma {:induction false} AtLevelDeeper(rows: seq<Row>, v: View, level: int)
    requires RowsAtOrBelow(rows, v, level + 1)
    ensures AtLevel(rows, level) == []
    decreases |rows|
  {
    if rows != [] {
      assert RowAtOrBelow(rows[0], v, level + 1);
      assert RowsAtOrBelow(rows[1..], v, level + 1) by {
        forall k | 0 <= k < |rows| - 1
          ensures RowAtOrBelow(rows[1..][k], v, level + 1)
        {
          assert rows[1..][k] == rows[k + 1];
        }
      }
      AtLevelDeeper(rows[1..], v, level);
    }
  }

  /** Flattening emits exactly one row per task of `list` at depth `level`, in list order; every
      other row belongs to a descendant and sits deeper. */
  lemma {:induction false} FlattenTopLevel(v: View, list: seq<ToDo>, level: int, fuel: nat)
    ensures AtLevel(Flatten(v, list, level, fuel), level) == TaskRows(v, list, level)
    decreases |list|
  {
    if list != [] {
      var d := list[0];
      var kids := Kids(v.pending, d);
      var shown := if kids != [] && d.id !in v.collapsed && fuel > 0 then Flatten(v, kids, level + 1, fuel - 1) else [];
      if kids != [] && d.id !in v.collapsed && fuel > 0 {
        FlattenRows(v, kids, level + 1, fuel - 1);
      }
      AtLevelDeeper(shown, v, level);
      AtLevelConcat([TaskRowOf(v, d, level)] + shown, Flatten(v, list[1..], level, fuel), level);
      AtLevelConcat([TaskRowOf(v, d, level)], shown, level);
      FlattenTopLevel(v, list[1..], level, fuel);
      assert AtLevel([TaskRowOf(v, d, level)], level) == [TaskRowOf(v, d, level)];
    }
  }

  /** When every task of `list` that has children is collapsed, the flattening is just one row per
      task. */
  lemma {:induction false} FlattenCollapsed(v: View, list: seq<ToDo>, level: int, fuel: nat)
    requires Branches(v.pending, list) <= v.collapsed
    ensures Flatten(v, list, level, fuel) == TaskRows(v, list, level)
    decreases |list|
  {
    if list != [] {
      var d := list[0];
      assert Branches(v.pending, list) == (if Kids(v.pending, d) != [] then {d.id} else {}) + Branches(v.pending, list[1..]);
      assert Kids(v.pending, d) == [] || d.id in v.collapsed;
      FlattenCollapsed(v, list[1..], level, fuel);
      FlattenClosedHead(v, list, level, fuel);
    }
  }

  /** A first task whose children are not shown contributes its own row only. */
  lemma FlattenClosedHead(v: View, list: seq<ToDo>, level: int, fuel: nat)
    requires list != [] && (Kids(v.pending, list[0]) == [] || list[0].id in v.collapsed)
    ensures Flatten(v, list, level, fuel) == [TaskRowOf(v, list[0], level)] + Flatten(v, list[1..], level, fuel)
  {
    var d := list[0];
    assert !(Kids(v.pending, d) != [] && d.id !in v.collapsed && fuel > 0);
  }

  // ---------------------------------------------------------------------------
  // Seeding the collapsed set
  // ---------------------------------------------------------------------------

  /** Every task reached from `list` through the shown children, in pre-order. */
  function Reachable(pending: Pending, list: seq<ToDo>, fuel: nat): seq<ToDo>
    decreases fuel, |list|
  {
    if list == [] then []
    else
      var kids := Kids(pending, list[0]);
      [list[0]] + (if kids != [] && fuel > 0 then Reachable(pending, kids, fuel - 1) else [])
      + Reachable(pending, list[1..], fuel)
  }

  /** `collectIdsWithChildren`: the ids of the tasks with children reached from `nodes`, from depth
      `minDepth` on. */
  function CollectIdsWithChildren(pending: Pending, nodes: seq<ToDo>, depth: int, minDepth: int, fuel: nat): set<Id>
    decreases fuel, |nodes|
  {
    if nodes == [] then {}
    else
      var n := nodes[0];
      var kids := Kids(pending, n);
      (if kids != [] && depth >= minDepth then {n.id} else {})
      + (if kids != [] && fuel > 0 then CollectIdsWithChildren(pending, kids, depth + 1, minDepth, fuel - 1) else {})
      + CollectIdsWithChildren(pending, nodes[1..], depth, minDepth, fuel)
  }

  /** The ids of the tasks of `s` that have children. */
  function Branches(pending: Pending, s: seq<ToDo>): set<Id>
  {
    if s == [] then {}
    else (if Kids(pending, s[0]) != [] then {s[0].id} else {}) + Branches(pending, s[1..])
  }

  lemma {:induction false} BranchesConcat(pending: Pending, a: seq<ToDo>, b: seq<ToDo>)
    ensures Branches(pending, a + b) == Branches(pending, a) + Branches(pending, b)
    decreases |a|
  {
    if a != [] {
      assert (a + b)[0] == a[0];
      assert (a + b)[1..] == a[1..] + b;
      BranchesConcat(pending, a[1..], b);
    } else {
      assert a + b == b;
    }
  }

  /** From depth 0 on, the collected ids are exactly those of the reachable tasks that have
      children. */
  lemma {:induction false} CollectIsBranches(pending: Pending, nodes: seq<ToDo>, depth: int, fuel: nat)
    requires depth >= 0
    ensures CollectIdsWithChildren(pending, nodes, depth, 0, fuel) == Branches(pending, Reachable(pending, nodes, fuel))
    decreases fuel, |nodes|
  {
    if nodes != [] {
      var n := nodes[0];
      var rest := Reachable(pending, nodes[1..], fuel);
      CollectIsBranches(pending, nodes[1..], depth, fuel);
      BranchesHead(pending, n);
      if Kids(pending, n) != [] && fuel > 0 {
        var below := Reachable(pending, Kids(pending, n), fuel - 1);
        CollectIsBranches(pending, Kids(pending, n), depth + 1, fuel - 1);
        BranchesConcat(pending, [n] + below, rest);
        BranchesConcat(pending, [n], below);
      } else {
        BranchesConcat(pending, [n], rest);
      }
    }
  }

  lemma BranchesHead(pending: Pending, n: ToDo)
    ensures Branches(pending, [n]) == if Kids(pending, n) != [] then {n.id} else {}
  {
    assert [n][1..] == [];
  }

  /** Every task of `nodes` that has children is collected. */
  lemma {:induction false} CollectHasTopBranches(pending: Pending, nodes: seq<ToDo>, depth: int, minDepth: int, fuel: nat)
    requires depth >= minDepth
    ensures Branches(pending, nodes) <= CollectIdsWithChildren(pending, nodes, depth, minDepth, fuel)
    decreases |nodes|
  {
    if nodes != [] {
      CollectHasTopBranches(pending, nodes[1..], depth, minDepth, fuel);
    }
  }

  /** The first root with id `id` (`roots.find { it.id == id }`). */
  function FindRoot(roots: seq<ToDo>, id: Id): (r: Option<ToDo>)
    ensures r.None? <==> forall k :: 0 <= k < |roots| ==> roots[k].id != id
    ensures r.Some? ==> r.value.id == id && exists k :: 0 <= k < |roots| && roots[k] == r.value && (forall m :: 0 <= m < k ==> roots[m].id != id)
  {
    if roots == [] then None
    else if roots[0].id == id then Some(roots[0])
    else
      var r := FindRoot(roots[1..], id);
      if r.Some? then
        var k :| 0 <= k < |roots[1..]| && roots[1..][k] == r.value && (forall m :: 0 <= m < k ==> roots[1..][m].id != id);
        assert roots[k + 1] == r.value;
        r
      else r
  }

  /** The collapsed set seeded for a root: every task below it that has children, or nothing when
      the root is unknown. */
  function SeedCollapsed(roots: seq<ToDo>, pending: Pending, rootId: Id, fuel: nat): set<Id>
  {
    match FindRoot(roots, rootId)
    case None => {}
    case Some(root) => CollectIdsWithChildren(pending, Kids(pending, root), 0, 0, fuel)
  }

  /** Right after seeding, a root's tree shows its first level only. */
  lemma SeedShowsFirstLevel(v: View, roots: seq<ToDo>, root: ToDo, fuel: nat)
    requires FindRoot(roots, root.id) == Some(root)
    requires v.collapsed == SeedCollapsed(roots, v.pending, root.id, fuel)
    ensures var kids := Kids(v.pending, root);
      Flatten(v, kids, 0, fuel) == TaskRows(v, kids, 0)
  {
    var kids := Kids(v.pending, root);
    CollectHasTopBranches(v.pending, kids, 0, 0, fuel);
    FlattenCollapsed(v, kids, 0, fuel);
  }

  // ---------------------------------------------------------------------------
  // Finding a task
  // ---------------------------------------------------------------------------

  /** Every task of the server trees under `list`, in pre-order (reference definition). */
  function Preorder(list: seq<ToDo>): seq<ToDo>
  {
    if list == [] then [] else [list[0]] + Preorder(list[0].children) + Preorder(list[1..])
  }

  /** The first task of `s` with id `id`. */
  function FirstWithId(s: seq<ToDo>, id: Id): (r: Option<ToDo>)
    ensures r.None? <==> forall k :: 0 <= k < |s| ==> s[k].id != id
    ensures r.Some? ==> r.value in s && r.value.id == id
  {
    if s == [] then None
    else if s[0].id == id then Some(s[0])
    else FirstWithId(s[1..], id)
  }

  lemma {:induction false} FirstWithIdConcat(a: seq<ToDo>, b: seq<ToDo>, id: Id)
    ensures FirstWithId(a + b, id) == if FirstWithId(a, id).Some? then FirstWithId(a, id) else FirstWithId(b, id)
    decreases |a|
  {
    if a != [] {
      assert (a + b)[0] == a[0];
      assert (a + b)[1..] == a[1..] + b;
      FirstWithIdConcat(a[1..], b, id);
    } else {
      assert a + b == b;
    }
  }

  /** `findById`'s walk over the server trees: the overridden task, searched in pre-order. */
  function Walk(o: Overrides, list: seq<ToDo>, id: Id): Option<ToDo>
  {
    if list == [] then None
    else if list[0].id == id then Some(ApplyOverrides(o, list[0]))
    else
      var fromKids := Walk(o, list[0].children, id);
      if fromKids.Some? then Some(ApplyOverrides(o, fromKids.value)) else Walk(o, list[1..], id)
  }

  /** The walk finds the first task with that id in pre-order, with the overrides applied once. */
  lemma {:induction false} WalkIsFirstInPreorder(o: Overrides, list: seq<ToDo>, id: Id)
    ensures Walk(o, list, id) ==
      if FirstWithId(Preorder(list), id).Some? then Some(ApplyOverrides(o, FirstWithId(Preorder(list), id).value)) else None
  {
    if list != [] {
      WalkIsFirstInPreorder(o, list[0].children, id);
      WalkIsFirstInPreorder(o, list[1..], id);
      FirstWithIdConcat([list[0]] + Preorder(list[0].children), Preorder(list[1..]), id);
      FirstWithIdConcat([list[0]], Preorder(list[0].children), id);
      var f := FirstWithId(Preorder(list[0].children), id);
      if list[0].id != id && f.Some? {
        ApplyOverridesIdempotent(o, f.value);
      }
    }
  }

  /** The first pending task with id `id`, searching the parents' lists in order: none exactly
      when no list holds the id, and otherwise the first match of the first list that holds it. */
  function FirstPending(pending: Pending, id: Id): (r: Option<ToDo>)
    ensures r.Some? ==> r.value.id == id
    ensures r.None? <==> forall j, k :: 0 <= j < |pending| && 0 <= k < |pending[j].1| ==> pending[j].1[k].id != id
    ensures r.Some? ==>
              exists j :: 0 <= j < |pending| && r == FirstWithId(pending[j].1, id) &&
                          forall m, k :: 0 <= m < j && 0 <= k < |pending[m].1| ==> pending[m].1[k].id != id
  {
    if pending == [] then None
    else
      var f := FirstWithId(pending[0].1, id);
      if f.Some? then f
      else
        var r := FirstPending(pending[1..], id);
        assert forall j :: 0 <= j < |pending[1..]| ==> pending[1..][j] == pending[j + 1];
        r
  }

  /** `findById`: the task with id `id` as shown, from the server trees first, then from the
      pending tasks. */
  function FindById(o: Overrides, roots: seq<ToDo>, pending: Pending, id: Id): (r: Option<ToDo>)
    ensures r.Some? ==> r.value.id == id
    ensures r.None? <==> FirstWithId(Preorder(roots), id).None? && FirstPending(pending, id).None?
    ensures FirstWithId(Preorder(roots), id).Some? ==>
      r == Some(ApplyOverrides(o, FirstWithId(Preorder(roots), id).value))
    ensures FirstWithId(Preorder(roots), id).None? && FirstPending(pending, id).Some? ==>
      r == Some(ApplyOverrides(o, FirstPending(pending, id).value))
  {
    WalkIsFirstInPreorder(o, roots, id);
    var inRoots := Walk(o, roots, id);
    if inRoots.Some? then inRoots
    else
      var p := FirstPending(pending, id);
      if p.Some? then Some(ApplyOverrides(o, p.value)) else None
  }

  // ---------------------------------------------------------------------------
  // Re-selection after a refresh
  // ---------------------------------------------------------------------------

  /** The nested `existsIn`: some task of the server trees under `list` has id `id`. */
  predicate ExistsIn(list: seq<ToDo>, id: Id)
  {
    if list == [] then false
    else list[0].id == id || ExistsIn(list[0].children, id) || ExistsIn(list[1..], id)
  }

  lemma {:induction false} ExistsInPreorder(list: seq<ToDo>, id: Id)
    ensures ExistsIn(list, id) <==> FirstWithId(Preorder(list), id).Some?
  {
    if list != [] {
      ExistsInPreorder(list[0].children, id);
      ExistsInPreorder(list[1..], id);
      FirstWithIdConcat([list[0]] + Preorder(list[0].children), Preorder(list[1..]), id);
      FirstWithIdConcat([list[0]], Preorder(list[0].children), id);
    }
  }

  predicate HasRoot(roots: seq<ToDo>, id: Id)
  {
    exists k :: 0 <= k < |roots| && roots[k].id == id
  }

  /** The root tasks of a fetched list, newest first: every task without a parent, each as often as
      the list holds it, and nothing else. */
  function RootsOf(list: seq<ToDo>): (roots: seq<ToDo>)
    ensures multiset(roots) == multiset(TopLevelOf(list))
    ensures forall t :: t in roots <==> t in list && t.parentId.None?
    ensures forall i, j :: 0 <= i < j < |roots| ==> roots[i].created >= roots[j].created
  {
    var top := TopLevelOf(list);
    var r := MergeAndSortByCreatedDesc(top, []);
    assert top + [] == top;
    forall t
      ensures t in r <==> t in top
    {
      assert t in r <==> t in multiset(r);
      assert t in top <==> t in multiset(top);
    }
    r
  }

  /** `a` keeps some of the elements of `b`, in the order they have there. */
  predicate SubsequenceOf(a: seq<ToDo>, b: seq<ToDo>)
    decreases |b|
  {
    a == [] || (b != [] && ((a[0] == b[0] && SubsequenceOf(a[1..], b[1..])) || SubsequenceOf(a, b[1..])))
  }

  /** `list.filter { it.parentId == null }`: the tasks without a parent, in their order, each as
      often as the list holds it. */
  function TopLevelOf(list: seq<ToDo>): (top: seq<ToDo>)
    ensures forall t :: t in top <==> t in list && t.parentId.None?
    ensures forall t :: multiset(top)[t] == (if t.parentId.None? then multiset(list)[t] else 0)
    ensures SubsequenceOf(top, list)
  {
    if list == [] then []
    else
      var rest := TopLevelOf(list[1..]);
      assert list == [list[0]] + list[1..];
      if list[0].parentId.None? then
        assert ([list[0]] + rest)[1..] == rest;
        [list[0]] + rest
      else rest
  }

  /** The root and parent selected after a refresh that fetched `roots`: the previous root while it
      still exists, otherwise none if the user closed it and the newest root if not; the previous
      parent while it occurs anywhere in the server trees, otherwise the selected root. */
  function Reselect(roots: seq<ToDo>, prevRoot: Option<Id>, prevSel: Option<Id>, closed: bool): (r: (Option<Id>, Option<Id>))
    requires roots != []
    ensures r.0 == (if prevRoot.Some? && HasRoot(roots, prevRoot.value) then prevRoot
                    else if closed then None else Some(roots[0].id))
    ensures prevSel.Some? && ExistsIn(roots, prevSel.value) ==> r.1 == prevSel
    ensures prevSel.Some? && !ExistsIn(roots, prevSel.value) ==> r.1 == r.0
    ensures prevSel.None? ==> r.1.None?
  {
    var root := if prevRoot.Some? && HasRoot(roots, prevRoot.value) then prevRoot
                else if closed then None else Some(roots[0].id);
    var parent := if prevSel.None? then None
      else if (exists k :: 0 <= k < |roots| && roots[k].id == prevSel.value) ||
              (exists k :: 0 <= k < |roots| && ExistsIn(roots[k].children, prevSel.value))
      then prevSel else root;
    ExistsInRoots(roots, prevSel.GetOr(0));
    (root, parent)
  }

  /** `roots.any { it.id == sel } || roots.any { existsIn(it.children) }` is `existsIn(roots)`. */
  lemma {:induction false} ExistsInRoots(roots: seq<ToDo>, id: Id)
    ensures ExistsIn(roots, id) <==>
      (exists k :: 0 <= k < |roots| && roots[k].id == id) ||
      (exists k :: 0 <= k < |roots| && ExistsIn(roots[k].children, id))
  {
    if roots != [] {
      ExistsInRoots(roots[1..], id);
      if exists k :: 0 <= k < |roots[1..]| && roots[1..][k].id == id {
        var k :| 0 <= k < |roots[1..]| && roots[1..][k].id == id;
        assert roots[k + 1].id == id;
      }
      if exists k :: 0 <= k < |roots[1..]| && ExistsIn(roots[1..][k].children, id) {
        var k :| 0 <= k < |roots[1..]| && ExistsIn(roots[1..][k].children, id);
        assert ExistsIn(roots[k + 1].children, id);
      }
      if exists k :: 0 <= k < |roots| && roots[k].id == id {
        var k :| 0 <= k < |roots| && roots[k].id == id;
        if k > 0 { assert roots[1..][k - 1].id == id; }
      }
      if exists k :: 0 <= k < |roots| && ExistsIn(roots[k].children, id) {
        var k :| 0 <= k < |roots| && ExistsIn(roots[k].children, id);
        if k > 0 { assert ExistsIn(roots[1..][k - 1].children, id); }
      }
    }
  }

  /** A selection that survived a refresh names tasks that exist: the root is a root, and the
      parent occurs in the trees or is the root. */
  lemma ReselectExists(roots: seq<ToDo>, prevRoot: Option<Id>, prevSel: Option<Id>, closed: bool)
    requires roots != []
    ensures var r := Reselect(roots, prevRoot, prevSel, closed);
      (r.0.Some? ==> HasRoot(roots, r.0.value)) && (r.1.Some? ==> ExistsIn(roots, r.1.value))
  {
    var r := Reselect(roots, prevRoot, prevSel, closed);
    if r.0.Some? && !(prevRoot.Some? && HasRoot(roots, prevRoot.value)) {
      assert roots[0].id == r.0.value;
    }
    if r.0.Some? {
      var k :| 0 <= k < |roots| && roots[k].id == r.0.value;
      ExistsInRoots(roots, r.0.value);
    }
  }

  /** Refreshing again with the same tasks keeps the selection. */
  lemma ReselectStable(roots: seq<ToDo>, prevRoot: Option<Id>, prevSel: Option<Id>, closed: bool)
    requires roots != []
    ensures var r := Reselect(roots, prevRoot, prevSel, closed);
      Reselect(roots, r.0, r.1, closed) == r
  {
    ReselectExists(roots, prevRoot, prevSel, closed);
  }

  // ---------------------------------------------------------------------------
  // The latest update below a root
  // ---------------------------------------------------------------------------

  /** The update time each task of the subtrees under `list` contributes, in the pre-order of
      `computeLatestTimestampIso`'s walk: the overridden modification time, else the server's,
      else the creation time; children are the server children followed by the pending ones, in
      that order. */
  function Candidates(o: Overrides, pending: Pending, list: seq<ToDo>, fuel: nat): (c: seq<Stamp>)
    ensures |c| >= |list|
    decreases fuel, |list|
  {
    if list == [] then []
    else
      var d := ApplyOverrides(o, list[0]);
      var candidate := if d.id in o.modified then o.modified[d.id] else d.modified.GetOr(d.created);
      var kids := d.children + PendingFor(pending, d.id);
      [candidate] + (if fuel > 0 then Candidates(o, pending, kids, fuel - 1) else [])
      + Candidates(o, pending, list[1..], fuel)
  }

  /** `computeLatestTimestampIso` as written: `best` is never assigned, so every candidate replaces
      the previous one and the walk ends with the last task it visits. */
  function LatestAsWritten(o: Overrides, pending: Pending, root: ToDo, fuel: nat): Stamp
  {
    var c := Candidates(o, pending, [root], fuel);
    c[|c| - 1]
  }

  function MaxOf(s: seq<Stamp>): (m: Stamp)
    requires s != []
    ensures m in s && forall k :: 0 <= k < |s| ==> s[k] <= m
  {
    if |s| == 1 then s[0]
    else
      var m := MaxOf(s[1..]);
      assert forall k :: 1 <= k < |s| ==> s[k] == s[1..][k - 1];
      if s[0] >= m then s[0] else m
  }

  /** The latest update time anywhere below (and including) a root, as the header means to show. */
  function Latest(o: Overrides, pending: Pending, root: ToDo, fuel: nat): (t: Stamp)
    ensures t in Candidates(o, pending, [root], fuel)
    ensures forall k :: 0 <= k < |Candidates(o, pending, [root], fuel)| ==> Candidates(o, pending, [root], fuel)[k] <= t
  {
    MaxOf(Candidates(o, pending, [root], fuel))
  }

  /** The root's own update time never exceeds the latest one. */
  lemma LatestCoversRoot(o: Overrides, pending: Pending, root: ToDo, fuel: nat)
    ensures root.modified.GetOr(root.created) <= Latest(o, pending, root, fuel) || root.id in o.modified
    ensures root.id in o.modified ==> o.modified[root.id] <= Latest(o, pending, root, fuel)
  {
    assert Candidates(o, pending, [root], fuel)[0] <= Latest(o, pending, root, fuel);
  }

  /** A root created at 5 with one child created at 1 and nothing modified: the header shows the
      child's time 1 although the latest time below the root is 5. */
  lemma LatestAsWrittenShowsLastVisited()
    ensures var child := ToDo(2, "b", Todo, None, 1, None, None, None, Some(1), []);
      var root := ToDo(1, "a", Todo, None, 5, None, None, None, None, [child]);
      LatestAsWritten(NoOverrides, [], root, 1) == 1 && Latest(NoOverrides, [], root, 1) == 5
  {
    var child := ToDo(2, "b", Todo, None, 1, None, None, None, Some(1), []);
    var root := ToDo(1, "a", Todo, None, 5, None, None, None, None, [child]);
    assert Candidates(NoOverrides, [], [child], 0) == [1];
    assert [root][1..] == [];
    assert Candidates(NoOverrides, [], [root], 1) == [5, 1];
  }

  // ---------------------------------------------------------------------------
  // The rows rendered
  // ---------------------------------------------------------------------------

  /** The navigation rows for `roots`, shaded by position. */
  function NavRows(roots: seq<ToDo>): (rows: seq<Row>)
    ensures |rows| == |roots|
    ensures forall k :: 0 <= k < |rows| ==> rows[k] == Nav(roots[k].id, Upper(roots[k].text), k)
  {
    seq(|roots|, k requires 0 <= k < |roots| => Nav(roots[k].id, Upper(roots[k].text), k))
  }

  /** `roots.filter { it.id != id }`: the roots with another id, in their order, each as often as
      `roots` holds it; all of them when none has that id. */
  function OtherRoots(roots: seq<ToDo>, id: Id): (others: seq<ToDo>)
    ensures forall t :: t in others <==> t in roots && t.id != id
    ensures forall t :: multiset(others)[t] == (if t.id != id then multiset(roots)[t] else 0)
    ensures SubsequenceOf(others, roots)
    ensures (forall k :: 0 <= k < |roots| ==> roots[k].id != id) ==> others == roots
  {
    if roots == [] then []
    else
      var rest := OtherRoots(roots[1..], id);
      assert roots == [roots[0]] + roots[1..];
      if roots[0].id != id then
        assert ([roots[0]] + rest)[1..] == rest;
        [roots[0]] + rest
      else rest
  }

  /** Removing a later element keeps the head in front. */
  lemma RemovedAtCons(s: seq<ToDo>, k: nat)
    requires 0 < k < |s|
    ensures s[..k] + s[k + 1..] == [s[0]] + (s[1..][..k - 1] + s[1..][k..])
  {
    assert s[..k] == [s[0]] + s[1..][..k - 1];
  }

  /** When exactly one root has `id`, the others are the roots with that one removed. */
  lemma {:induction false} OtherRootsRemovesOne(roots: seq<ToDo>, id: Id, k: nat)
    requires k < |roots| && roots[k].id == id
    requires forall j :: 0 <= j < |roots| && j != k ==> roots[j].id != id
    ensures OtherRoots(roots, id) == RemovedAt(roots, k)
  {
    var tail := roots[1..];
    forall j | 0 <= j < |tail| && j != k - 1
      ensures tail[j].id != id
    {
      assert tail[j] == roots[j + 1];
    }
    if k == 0 {
      calc {
        OtherRoots(roots, id);
        OtherRoots(tail, id);
        tail;
        roots[..0] + roots[1..];
      }
    } else {
      OtherRootsRemovesOne(tail, id, k - 1);
      calc {
        OtherRoots(roots, id);
        [roots[0]] + OtherRoots(tail, id);
        [roots[0]] + (tail[..k - 1] + tail[k..]);
        { RemovedAtCons(roots, k); }
        roots[..k] + roots[k + 1..];
      }
    }
  }

  /** The root `render` opens for a selected id: that root, or the first one when it is gone. */
  function OpenRoot(roots: seq<ToDo>, id: Id): (root: ToDo)
    requires roots != []
    ensures root in roots
    ensures HasRoot(roots, id) ==> root.id == id
    ensures !HasRoot(roots, id) ==> root == roots[0]
  {
    var found := FindRoot(roots, id);
    if found.Some? then found.value else roots[0]
  }

  /** The header of an open root: its label upper-cased and its latest update. */
  function HeaderOf(root: ToDo, v: View, fuel: nat): Row
  {
    Header(root.id, Upper(root.text), Latest(v.overrides, v.pending, root, fuel))
  }

  /** The rows of an open root's tree, from its first level down. */
  function Tree(v: View, root: ToDo, fuel: nat): seq<Row>
  {
    Flatten(v, Kids(v.pending, root), 0, fuel)
  }

  /** What `render` shows: with no root open, one navigation row per root; otherwise the open
      root's header, its tree, the input row, and the other roots. A selected root that is gone
      falls back to the first root (and Kotlin's `roots.first()` throws when there is none). */
  function RowsOf(roots: seq<ToDo>, selectedRoot: Option<Id>, v: View, fuel: nat): (rows: seq<Row>)
    requires selectedRoot.Some? ==> roots != []
  {
    if selectedRoot.None? then NavRows(roots)
    else
      var root := OpenRoot(roots, selectedRoot.value);
      [HeaderOf(root, v, fuel)] + Tree(v, root, fuel) + [Input] + NavRows(OtherRoots(roots, root.id))
  }

  /** The navigation rows shown beside an open root never lead back to it. */
  lemma NavRowsOfOthers(roots: seq<ToDo>, id: Id)
    ensures forall k :: 0 <= k < |NavRows(OtherRoots(roots, id))| ==>
      NavRows(OtherRoots(roots, id))[k].rootId != id
  {
    var others := OtherRoots(roots, id);
    forall k | 0 <= k < |others|
      ensures NavRows(others)[k].rootId != id
    {
      assert others[k] in others;
    }
  }

  // ---------------------------------------------------------------------------
  // The screen's state
  // ---------------------------------------------------------------------------

  /** Toggling membership of one id. */
  function Toggled(s: set<Id>, id: Id): (r: set<Id>)
    ensures id in r <==> id !in s
    ensures forall x :: x != id ==> (x in r <==> x in s)
  {
    if id in s then s - {id} else s + {id}
  }

  lemma ToggledTwice(s: set<Id>, id: Id)
    ensures Toggled(Toggled(s, id), id) == s
  {
  }

  /** The number of tasks held, server and pending; it bounds the depth the walks descend. */
  function Population(list: seq<ToDo>): nat
  {
    if list == [] then 0 else 1 + Population(list[0].children) + Population(list[1..])
  }

  function PendingCount(pending: Pending): nat
  {
    if pending == [] then 0 else |pending[0].1| + PendingCount(pending[1..])
  }

  class ToDoActivity {
    var roots: seq<ToDo>
    var selectedRootId: Option<Id>
    var selectedParentId: Option<Id>
    var overrideStates: map<Id, State>
    var overrideLabels: map<Id, string>
    var overrideDescriptions: map<Id, Option<string>>
    var overrideModified: map<Id, Stamp>
    var newTasksByRoot: Pending
    var collapsed: set<Id>
    var hasUserClosedRoot: bool
    const adapter: ToDoListAdapter

    /** A selected root implies that there are roots to show. */
    predicate Valid()
      reads this`selectedRootId, this`roots
    {
      selectedRootId.Some? ==> roots != []
    }

    function Overlay(): Overrides
      reads this`overrideStates, this`overrideLabels, this`overrideDescriptions, this`overrideModified
    {
      Overrides(overrideStates, overrideLabels, overrideDescriptions, overrideModified)
    }

    function Fuel(): nat
      reads this`roots, this`newTasksByRoot
    {
      Population(roots) + PendingCount(newTasksByRoot)
    }

    function CurrentView(): View
      reads this
    {
      View(Overlay(), newTasksByRoot, collapsed, selectedParentId)
    }

    /** The rows the current state renders to. */
    function Rows(): seq<Row>
      reads this
      requires Valid()
    {
      RowsOf(roots, selectedRootId, CurrentView(), Fuel())
    }

    constructor()
      ensures Valid() && roots == [] && selectedRootId.None? && selectedParentId.None?
      ensures Overlay() == NoOverrides && newTasksByRoot == [] && collapsed == {} && !hasUserClosedRoot
      ensures fresh(adapter) && adapter.items == []
    {
      roots := [];
      selectedRootId := None;
      selectedParentId := None;
      overrideStates := map[];
      overrideLabels := map[];
      overrideDescriptions := map[];
      overrideModified := map[];
      newTasksByRoot := [];
      collapsed := {};
      hasUserClosedRoot := false;
      adapter := new ToDoListAdapter();
    }

    /** Shows the current state. */
    method Render()
      requires Valid()
      modifies adapter
      ensures adapter.items == Rows()
    {
      adapter.SubmitItems(Rows());
    }

    /** Removes every override of one task. */
    method ClearOverridesFor(id: Id)
      modifies this`overrideStates, this`overrideLabels, this`overrideDescriptions, this`overrideModified
      ensures Overlay() == Without(old(Overlay()), id)
    {
      overrideStates := overrideStates - {id};
      overrideLabels := overrideLabels - {id};
      overrideDescriptions := overrideDescriptions - {id};
      overrideModified := overrideModified - {id};
    }

    /** Expands a collapsed task or collapses an expanded one, then re-renders. */
    method OnToggleExpand(id: Id)
      requires Valid()
      modifies this`collapsed, adapter
      ensures Valid() && collapsed == Toggled(old(collapsed), id)
      ensures adapter.items == Rows()
    {
      if id !in collapsed {
        collapsed := collapsed + {id};
      } else {
        collapsed := collapsed - {id};
      }
      Render();
    }

    /** Makes a task the parent for new tasks, then re-renders. */
    method OnSelectTask(id: Id)
      requires Valid()
      modifies this`selectedParentId, adapter
      ensures Valid() && selectedParentId == Some(id)
      ensures adapter.items == Rows()
    {
      selectedParentId := Some(id);
      Render();
    }

    /** Closes the open root: the screen falls back to the list of roots. */
    method OnCloseRoot()
      requires Valid()
      modifies this`selectedRootId, this`selectedParentId, this`hasUserClosedRoot, adapter
      ensures Valid() && selectedRootId.None? && selectedParentId.None? && hasUserClosedRoot
      ensures adapter.items == NavRows(roots)
    {
      selectedRootId := None;
      selectedParentId := None;
      hasUserClosedRoot := true;
      Render();
    }

    /** Collapses every task with children below a root, so that only its first level shows. */
    method SeedCollapsedForRoot(rootId: Id)
      modifies this`collapsed
      ensures collapsed == SeedCollapsed(roots, newTasksByRoot, rootId, Fuel())
    {
      // the set is cleared, then refilled only when the root is known
      var ids: set<Id> := {};
      var root := FindRoot(roots, rootId);
      if root.Some? {
        var firstLevel := Kids(newTasksByRoot, root.value);
        ids := CollectIdsWithChildren(newTasksByRoot, firstLevel, 0, 0, Fuel());
      }
      assert ids == SeedCollapsed(roots, newTasksByRoot, rootId, Fuel());
      collapsed := ids;
    }

    /** Adds a pending task under the selected parent (or the open root when no parent is
        selected), then re-renders; nothing happens when neither is set. The fresh id and the
        creation time are parameters. */
    method OnAddTask(text: string, tempId: Id, now: Stamp)
      requires Valid()
      modifies this`newTasksByRoot, adapter
      ensures Valid()
      ensures var parent := if selectedParentId.Some? then selectedParentId else selectedRootId;
        if parent.None? then newTasksByRoot == old(newTasksByRoot) && adapter.items == old(adapter.items)
        else
          newTasksByRoot == AppendPending(old(newTasksByRoot), parent.value,
            ToDo(tempId, text, Todo, None, now, None, None, None, parent, [])) &&
          adapter.items == Rows()
    {
      var parent := if selectedParentId.Some? then selectedParentId else selectedRootId;
      if parent.None? {
        return;
      }
      var newDto := ToDo(tempId, text, Todo, None, now, None, None, None, parent, []);
      newTasksByRoot := AppendPending(newTasksByRoot, parent.value, newDto);
      Render();
    }

    /** The selection step of a refresh over the freshly fetched roots: re-selects as `Reselect`
        says, and seeds the collapsed set when the open root changed. */
    method ReselectAfterRefresh(prevRoot: Option<Id>, prevSel: Option<Id>)
      requires roots != []
      modifies this`selectedRootId, this`selectedParentId, this`collapsed
      ensures Valid()
      ensures (selectedRootId, selectedParentId) == Reselect(roots, prevRoot, prevSel, hasUserClosedRoot)
      ensures selectedRootId.Some? && selectedRootId != prevRoot ==>
        collapsed == SeedCollapsed(roots, newTasksByRoot, selectedRootId.value, Fuel())
      ensures selectedRootId.None? || selectedRootId == prevRoot ==> collapsed == old(collapsed)
    {
      var selection := Reselect(roots, prevRoot, prevSel, hasUserClosedRoot);
      selectedRootId := selection.0;
      if selectedRootId.Some? && selectedRootId != prevRoot {
        SeedCollapsedForRoot(selectedRootId.value);
      }
      selectedParentId := selection.1;
    }

    /** With no roots left, nothing is selected and the list is empty. */
    method ShowNoRoots()
      modifies this`selectedRootId, this`selectedParentId, adapter
      ensures Valid() && selectedRootId.None? && selectedParentId.None? && adapter.items == []
    {
      selectedRootId := None;
      selectedParentId := None;
      adapter.SubmitItems([]);
    }

    /** Takes in a fresh task list from the server: drops the pending tasks, keeps the roots newest
        first, re-selects, and re-renders (an empty list when there are no roots). */
    method RefreshFromServer(list: seq<ToDo>)
      requires Valid()
      modifies this`newTasksByRoot, this`roots, this`selectedRootId, this`selectedParentId, this`collapsed, adapter
      ensures Valid() && roots == RootsOf(list) && newTasksByRoot == []
      ensures roots == [] ==> selectedRootId.None? && selectedParentId.None? && adapter.items == []
      ensures roots != [] ==>
        (selectedRootId, selectedParentId) ==
          Reselect(roots, old(selectedRootId), old(selectedParentId), hasUserClosedRoot) &&
        adapter.items == Rows()
      ensures selectedRootId.Some? && selectedRootId != old(selectedRootId) ==>
        collapsed == SeedCollapsed(roots, [], selectedRootId.value, Fuel())
      ensures selectedRootId.None? || selectedRootId == old(selectedRootId) ==> collapsed == old(collapsed)
    {
      ShowRoots(RootsOf(list));
    }

    /** The refresh over roots already ordered newest first. */
    method ShowRoots(rs: seq<ToDo>)
      modifies this`newTasksByRoot, this`roots, this`selectedRootId, this`selectedParentId, this`collapsed, adapter
      ensures Valid() && roots == rs && newTasksByRoot == []
      ensures rs == [] ==> selectedRootId.None? && selectedParentId.None? && adapter.items == []
      ensures rs != [] ==>
        (selectedRootId, selectedParentId) ==
          Reselect(rs, old(selectedRootId), old(selectedParentId), hasUserClosedRoot) &&
        adapter.items == Rows()
      ensures selectedRootId.Some? && selectedRootId != old(selectedRootId) ==>
        collapsed == SeedCollapsed(rs, [], selectedRootId.value, Fuel())
      ensures selectedRootId.None? || selectedRootId == old(selectedRootId) ==> collapsed == old(collapsed)
    {
      var prevRoot := selectedRootId;
      var prevSel := selectedParentId;
      newTasksByRoot, roots := [], rs;
      if rs == [] {
        ShowNoRoots();
        return;
      }
      ReselectAfterRefresh(prevRoot, prevSel);
      assert newTasksByRoot == [] && roots == rs;
      ghost var selected, collapsedNow := (selectedRootId, selectedParentId), collapsed;
      Render();
      assert (selectedRootId, selectedParentId) == selected && collapsed == collapsedNow;
    }
  }
}
