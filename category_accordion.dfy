/** The accordion of category sections on the to-buy screen: one header row per section, followed
    by the section's items while that section is expanded. */
module CategoryAccordion {
  import opened ToBuyDto

  /** A category with its items; a header click flips `isExpanded` in place. */
  class Section {
    const category: Category
    const items: seq<ToBuy>
    var isExpanded: bool

    constructor(category: Category, items: seq<ToBuy>, isExpanded: bool)
      ensures this.category == category && this.items == items && this.isExpanded == isExpanded
    {
      this.category := category;
      this.items := items;
      this.isExpanded := isExpanded;
    }
  }

  /** One row of the accordion: a section's header or one of its items. */
  datatype Entry = HeaderEntry(section: Section) | ItemEntry(item: ToBuy)

  const TypeCategoryHeader: int := 0
  const TypeItem: int := 1

  function ItemEntries(items: seq<ToBuy>): (r: seq<Entry>)
    ensures |r| == |items| && forall k :: 0 <= k < |items| ==> r[k] == ItemEntry(items[k])
  {
    seq(|items|, k requires 0 <= k < |items| => ItemEntry(items[k]))
  }

  /** The rows of one section: its header, then its items when it is expanded. */
  function Block(s: Section): seq<Entry>
    reads s
  {
    [HeaderEntry(s)] + if s.isExpanded then ItemEntries(s.items) else []
  }

  /** The rows of the sections, section by section in order. */
  function Flat(ss: seq<Section>): seq<Entry>
    reads ss
  {
    if ss == [] then [] else Flat(ss[..|ss| - 1]) + Block(ss[|ss| - 1])
  }

  /** How many items the expanded sections hold together. */
  function ExpandedItemCount(ss: seq<Section>): nat
    reads ss
  {
    if ss == [] then 0
    else (if ss[0].isExpanded then |ss[0].items| else 0) + ExpandedItemCount(ss[1..])
  }

  /** Flattening distributes over concatenation. */
  lemma {:induction false} FlatConcat(a: seq<Section>, b: seq<Section>)
    ensures Flat(a + b) == Flat(a) + Flat(b)
    decreases |b|
  {
    if b == [] {
      assert a + b == a;
    } else {
      var c := b[..|b| - 1];
      assert (a + b)[..|a + b| - 1] == a + c;
      FlatConcat(a, c);
    }
  }

  lemma {:induction false} ExpandedItemCountConcat(a: seq<Section>, b: seq<Section>)
    ensures ExpandedItemCount(a + b) == ExpandedItemCount(a) + ExpandedItemCount(b)
    decreases |a|
  {
    if a == [] {
      assert a + b == b;
    } else {
      assert (a + b)[1..] == a[1..] + b;
      ExpandedItemCountConcat(a[1..], b);
    }
  }

  /** The number of rows is the number of sections plus the items of the expanded ones. */
  lemma {:induction false} FlatLength(ss: seq<Section>)
    ensures |Flat(ss)| == |ss| + ExpandedItemCount(ss)
    decreases |ss|
  {
    if ss != [] {
      var init := ss[..|ss| - 1];
      FlatLength(init);
      assert ss == init + [ss[|ss| - 1]];
      ExpandedItemCountConcat(init, [ss[|ss| - 1]]);
    }
  }

  /** Section `k`'s rows (its header, then its items when it is expanded) sit right after the rows
      of the sections before it and right before the rows of the sections after it. */
  lemma SectionRows(ss: seq<Section>, k: int)
    requires 0 <= k < |ss|
    ensures Flat(ss) == Flat(ss[..k]) + Block(ss[k]) + Flat(ss[k + 1..])
  {
    var before, rest := ss[..k], ss[k + 1..];
    assert ss == (before + [ss[k]]) + rest;
    FlatConcat(before + [ss[k]], rest);
    assert (before + [ss[k]])[..|before|] == before;
  }

  /** When no section but `s` is expanded and `s` occurs once, the rows are the headers plus the
      items of `s` if it is expanded. */
  lemma {:induction false} OnlyOneExpandedCount(ss: seq<Section>, s: Section)
    requires forall t :: t in ss && t != s ==> !t.isExpanded
    requires forall i, j :: 0 <= i < j < |ss| ==> ss[i] != ss[j]
    ensures s in ss ==> ExpandedItemCount(ss) == if s.isExpanded then |s.items| else 0
    ensures s !in ss ==> ExpandedItemCount(ss) == 0
    decreases |ss|
  {
    if ss != [] {
      OnlyOneExpandedCount(ss[1..], s);
      if ss[0] == s {
        assert s !in ss[1..] by {
          forall j | 0 <= j < |ss[1..]|
            ensures ss[1..][j] != s
          {
            assert ss[0] != ss[j + 1];
          }
        }
      }
    }
  }

  /** The adapter over the list of sections it shares with the screen. */
  class CategoryAccordionAdapter {
    var sections: seq<Section>
    var expandedItems: seq<Entry>

    /** The rows shown are the flattening of the sections. */
    ghost predicate Valid()
      reads this, sections
    {
      expandedItems == Flat(sections)
    }

    constructor(sections: seq<Section>)
      ensures this.sections == sections && Valid()
    {
      this.sections := sections;
      expandedItems := [];
      new;
      UpdateExpandedItems();
    }

    /** Rebuilds the rows from the sections. */
    method UpdateExpandedItems()
      modifies this
      ensures sections == old(sections) && Valid()
    {
      expandedItems := [];
      var i := 0;
      while i < |sections|
        invariant 0 <= i <= |sections| && sections == old(sections)
        invariant expandedItems == Flat(sections[..i])
      {
        var section := sections[i];
        expandedItems := expandedItems + [HeaderEntry(section)];
        if section.isExpanded {
          expandedItems := expandedItems + ItemEntries(section.items);
        }
        assert sections[..i + 1][..i] == sections[..i];
        i := i + 1;
      }
      assert sections[..i] == sections;
    }

    /** The number of rows: one per section plus the items of the expanded sections. */
    function ItemCount(): (n: int)
      reads this, sections
      requires Valid()
      ensures n == |sections| + ExpandedItemCount(sections)
    {
      FlatLength(sections);
      |expandedItems|
    }

    /** The view type of the row at `position`. */
    function ItemViewType(position: int): (t: int)
      reads this, sections
      requires Valid() && 0 <= position < |expandedItems|
      ensures t == TypeCategoryHeader <==> expandedItems[position].HeaderEntry?
      ensures t == TypeItem <==> expandedItems[position].ItemEntry?
    {
      match expandedItems[position]
      case HeaderEntry(_) => TypeCategoryHeader
      case ItemEntry(_) => TypeItem
    }

    /** Replaces the sections and rebuilds the rows; the whole list is redrawn when the row count
        changed or no section is left, and the rows are refreshed in place otherwise. */
    method UpdateSections(newSections: seq<Section>) returns (n: Notice)
      modifies this
      ensures sections == newSections && Valid()
      ensures n == if |old(expandedItems)| != |expandedItems| || newSections == [] then DataSetChanged
        else RangeChanged(0, |expandedItems|)
    {
      var oldItemCount := |expandedItems|;
      sections := [];
      sections := sections + newSections;
      UpdateExpandedItems();
      var newItemCount := |expandedItems|;
      if oldItemCount != newItemCount || sections == [] {
        n := DataSetChanged;
      } else {
        n := RangeChanged(0, newItemCount);
      }
    }

    /** A click on the header of `section`: every section collapses, then `section` takes the
        opposite of its previous state; the list is told which rows appeared or vanished. */
    method OnHeaderClick(section: Section) returns (n: Notice)
      modifies this, sections, section
      ensures sections == old(sections) && Valid()
      ensures forall t :: t in sections && t != section ==> !t.isExpanded
      ensures section.isExpanded == !old(section.isExpanded)
      ensures n == RowChange(|old(expandedItems)|, |expandedItems|)
    {
      var wasExpanded := section.isExpanded;
      var oldExpandedCount := |expandedItems|;
      var i := 0;
      while i < |sections|
        invariant 0 <= i <= |sections| && sections == old(sections)
        invariant forall k :: 0 <= k < i ==> !sections[k].isExpanded
      {
        sections[i].isExpanded := false;
        i := i + 1;
      }
      section.isExpanded := !wasExpanded;
      UpdateExpandedItems();
      var newExpandedCount := |expandedItems|;
      if newExpandedCount > oldExpandedCount {
        n := RangeInserted(oldExpandedCount, newExpandedCount - oldExpandedCount);
      } else if newExpandedCount < oldExpandedCount {
        n := RangeRemoved(newExpandedCount, oldExpandedCount - newExpandedCount);
      } else {
        n := NoRangeChange;
      }
    }
  }

  /** The change notices the adapter sends to the list. */
  datatype Notice =
    | DataSetChanged
    | RangeChanged(start: int, count: int)
    | RangeInserted(start: int, count: int)
    | RangeRemoved(start: int, count: int)
    | NoRangeChange

  /** The notice for a row count going from `before` to `after`: rows appended at the end or removed
      from the end. */
  function RowChange(before: int, after: int): (n: Notice)
    ensures n.RangeInserted? ==> n.start == before && before + n.count == after && n.count > 0
    ensures n.RangeRemoved? ==> n.start == after && after + n.count == before && n.count > 0
    ensures n == NoRangeChange <==> before == after
    ensures n.RangeInserted? || n.RangeRemoved? || n == NoRangeChange
  {
    if after > before then RangeInserted(before, after - before)
    else if after < before then RangeRemoved(after, before - after)
    else NoRangeChange
  }
}
