/** The to-buy screen's state: the items, the filter and sort settings, and the accordion that
    shows the resulting sections. */
module ToBuyActivityState {
  import opened Opt
  import opened Strings
  import opened Sorting
  import opened ToBuyDto
  import opened CategoryAccordion
  import opened ToBuyScreen

  /** The section objects `ss` show the sections `metas`, in order. */
  predicate Shows(ss: seq<Section>, metas: seq<Meta>)
  {
    |ss| == |metas| &&
    forall k :: 0 <= k < |ss| ==> ss[k].category == metas[k].category && ss[k].items == metas[k].items
  }

  /** New collapsed section objects for `metas` (`CategorySection(it.category, it.items, false)`). */
  method NewSections(metas: seq<Meta>) returns (ss: seq<Section>)
    ensures Shows(ss, metas)
    ensures forall k :: 0 <= k < |ss| ==> fresh(ss[k]) && !ss[k].isExpanded
    ensures forall i, j :: 0 <= i < j < |ss| ==> ss[i] != ss[j]
  {
    ss := [];
    var i := 0;
    while i < |metas|
      invariant 0 <= i <= |metas| && Shows(ss, metas[..i])
      invariant forall k :: 0 <= k < |ss| ==> fresh(ss[k]) && !ss[k].isExpanded
      invariant forall a, b :: 0 <= a < b < |ss| ==> ss[a] != ss[b]
    {
      var s := new Section(metas[i].category, metas[i].items, false);
      ss := ss + [s];
      i := i + 1;
    }
  }

  /** Groups the shown items `filtered` of `all` and sorts the groups into sections. */
  method SortedSections(all: seq<ToBuy>, filtered: seq<ToBuy>, mode: SortMode, ts: Option<string> -> int)
    returns (sortedMetas: seq<Meta>)
    ensures sortedMetas == SortBy(Metas(all, Grouped(filtered), mode, ts), MetaOrder(mode))
  {
    var categoryMap := GroupByCategory(filtered);
    var metas := Metas(all, categoryMap, mode, ts);
    sortedMetas := SortBy(metas, MetaOrder(mode));
  }

  /** The filter and sort settings of the screen. */
  datatype Settings = Settings(onlyNotBought: bool, query: string, year: Option<int>, mode: SortMode)

  /** The items `items` the settings `s` let through. */
  function FilterOf(items: seq<ToBuy>, s: Settings): seq<ToBuy>
  {
    Filter(items, s.onlyNotBought, s.query, s.year)
  }

  /** The sections the settings `s` call for. */
  function SectionsOf(items: seq<ToBuy>, s: Settings, ts: Option<string> -> int): seq<Meta>
  {
    SectionsFor(items, s.onlyNotBought, s.query, s.year, s.mode, ts)
  }

  /** The sections `sections` computed from the items `items` under the settings `settings`. */
  datatype Shown = Shown(items: seq<ToBuy>, settings: Settings, sections: seq<Meta>)

  class ToBuyActivity {
    var allToBuyItems: seq<ToBuy>
    var showOnlyNotBought: bool
    var searchQuery: string
    var selectedYear: Option<int>
    var sortMode: SortMode
    /** The entries of the year spinner. */
    var yearOptions: seq<string>
    /** The total shown at the top of the screen. */
    var totalPrice: int
    /** The date parser (`parseTimestamp`), which reads the system time zone. */
    const parseTimestamp: Option<string> -> int
    /** The accordion; its section list is the screen's `filteredSections`. */
    const categoryAdapter: CategoryAccordionAdapter

    function Filters(): Settings
      reads this
    {
      Settings(showOnlyNotBought, searchQuery, selectedYear, sortMode)
    }

    /** What the screen last computed: the sections, from which items and settings. */
    ghost var shown: Shown

    /** The accordion shows the sections computed from `shownItems` and `shownSettings`, and the
        top total is the total of the items those settings let through. */
    ghost predicate Valid()
      reads this, categoryAdapter, categoryAdapter.sections
    {
      categoryAdapter.Valid() && Shows(categoryAdapter.sections, shown.sections) && Consistent()
    }

    /** The sections and the total last computed are those of `shown.items` under `shown.settings`. */
    ghost predicate Consistent()
      reads this
    {
      shown.sections == SectionsOf(shown.items, shown.settings, parseTimestamp) &&
      totalPrice == Total(FilterOf(shown.items, shown.settings))
    }

    /** What is on screen was computed from the current items and settings. */
    ghost predicate UpToDate()
      reads this
    {
      shown.items == allToBuyItems && shown.settings == Filters()
    }

    /** A new screen: no items, only items not yet bought, no query, every year, default order. */
    constructor(parseTimestamp: Option<string> -> int)
      ensures Valid() && UpToDate() && fresh(categoryAdapter)
      ensures allToBuyItems == [] && yearOptions == []
      ensures Filters() == Settings(true, "", None, NoSort)
      ensures this.parseTimestamp == parseTimestamp
    {
      allToBuyItems := [];
      showOnlyNotBought := true;
      searchQuery := "";
      selectedYear := None;
      sortMode := NoSort;
      yearOptions := [];
      totalPrice := 0;
      this.parseTimestamp := parseTimestamp;
      categoryAdapter := new CategoryAccordionAdapter([]);
      shown := Shown([], Settings(true, "", None, NoSort), []);
    }

    /** Filters, groups and sorts the items into fresh, collapsed sections and updates the total. */
    method UpdateCategorySections()
      modifies this`shown, this`totalPrice, categoryAdapter
      ensures Valid() && UpToDate()
      ensures forall k :: 0 <= k < |categoryAdapter.sections| ==>
        fresh(categoryAdapter.sections[k]) && !categoryAdapter.sections[k].isExpanded
    {
      var filteredItems := Filter(allToBuyItems, showOnlyNotBought, searchQuery, selectedYear);
      var sortedMetas := SortedSections(allToBuyItems, filteredItems, sortMode, parseTimestamp);
      Record(sortedMetas, Total(filteredItems), allToBuyItems, Filters());
      ShowSections(sortedMetas);
    }

    /** Records what was computed and shows the total. */
    method Record(metas: seq<Meta>, total: int, ghost items: seq<ToBuy>, ghost settings: Settings)
      requires items == allToBuyItems && settings == Filters()
      requires metas == SectionsOf(items, settings, parseTimestamp)
      requires total == Total(FilterOf(items, settings))
      modifies this`shown, this`totalPrice
      ensures Consistent() && UpToDate() && shown.sections == metas
    {
      shown, totalPrice := Shown(items, settings, metas), total;
    }

    /** Hands fresh, collapsed sections for `metas` to the accordion. */
    method ShowSections(metas: seq<Meta>)
      requires Consistent() && metas == shown.sections
      modifies categoryAdapter
      ensures Valid()
      ensures forall k :: 0 <= k < |categoryAdapter.sections| ==>
        fresh(categoryAdapter.sections[k]) && !categoryAdapter.sections[k].isExpanded
    {
      var sections := NewSections(metas);
      var _ := categoryAdapter.UpdateSections(sections);
    }

    /** A click on the price sort button. */
    method OnPriceSortClick()
      modifies this, categoryAdapter
      ensures Valid() && UpToDate() && allToBuyItems == old(allToBuyItems) && yearOptions == old(yearOptions)
      ensures Filters() == old(Filters()).(mode := NextOnPriceClick(old(sortMode)))
    {
      sortMode := NextOnPriceClick(sortMode);
      ghost var settings, items, options := Filters(), allToBuyItems, yearOptions;
      UpdateCategorySections();
      assert Filters() == settings && allToBuyItems == items && yearOptions == options;
    }

    /** A click on the date sort button. */
    method OnDateSortClick()
      modifies this, categoryAdapter
      ensures Valid() && UpToDate() && allToBuyItems == old(allToBuyItems) && yearOptions == old(yearOptions)
      ensures Filters() == old(Filters()).(mode := NextOnDateClick(old(sortMode)))
    {
      sortMode := NextOnDateClick(sortMode);
      ghost var settings, items, options := Filters(), allToBuyItems, yearOptions;
      UpdateCategorySections();
      assert Filters() == settings && allToBuyItems == items && yearOptions == options;
    }

    /** The "not bought" / "all" buttons. */
    method SetFilterState(notBought: bool)
      modifies this, categoryAdapter
      ensures Valid() && UpToDate() && allToBuyItems == old(allToBuyItems) && yearOptions == old(yearOptions)
      ensures Filters() == old(Filters()).(onlyNotBought := notBought)
    {
      showOnlyNotBought := notBought;
      ghost var settings, items, options := Filters(), allToBuyItems, yearOptions;
      UpdateCategorySections();
      assert Filters() == settings && allToBuyItems == items && yearOptions == options;
    }

    /** The search box changed: the query is its trimmed text, or empty. */
    method OnSearchTextChanged(text: Option<string>)
      modifies this, categoryAdapter
      ensures Valid() && UpToDate() && allToBuyItems == old(allToBuyItems) && yearOptions == old(yearOptions)
      ensures Filters() == old(Filters()).(query := if text.Some? then Trim(text.value) else "")
    {
      SetSearchQuery(if text.Some? then Trim(text.value) else "");
    }

    /** The query becomes `query` and the sections follow. */
    method SetSearchQuery(query: string)
      modifies this, categoryAdapter
      ensures Valid() && UpToDate() && allToBuyItems == old(allToBuyItems) && yearOptions == old(yearOptions)
      ensures Filters() == old(Filters()).(query := query)
    {
      searchQuery := query;
      ghost var settings, items, options := Filters(), allToBuyItems, yearOptions;
      UpdateCategorySections();
      assert Filters() == settings && allToBuyItems == items && yearOptions == options;
    }

    /** A spinner entry was picked. */
    method OnYearSelected(value: string)
      modifies this, categoryAdapter
      ensures Valid() && UpToDate() && allToBuyItems == old(allToBuyItems) && yearOptions == old(yearOptions)
      ensures Filters() == old(Filters()).(year := SelectedYearOf(value))
    {
      selectedYear := SelectedYearOf(value);
      ghost var settings, items, options := Filters(), allToBuyItems, yearOptions;
      UpdateCategorySections();
      assert Filters() == settings && allToBuyItems == items && yearOptions == options;
    }

    /** Refills the year spinner from the items. */
    method UpdateYearFilterOptions()
      modifies this
      ensures yearOptions == YearOptions(allToBuyItems)
      ensures allToBuyItems == old(allToBuyItems) && Filters() == old(Filters()) && totalPrice == old(totalPrice)
    {
      yearOptions := YearOptions(allToBuyItems);
    }

    /** A new item from the add dialog joins the end of the list. */
    method AddToBuyItem(item: ToBuy)
      modifies this, categoryAdapter
      ensures Valid() && UpToDate() && Filters() == old(Filters())
      ensures allToBuyItems == old(allToBuyItems) + [item]
      ensures yearOptions == YearOptions(allToBuyItems)
    {
      allToBuyItems := allToBuyItems + [item];
      UpdateYearFilterOptions();
      ghost var settings, items, options := Filters(), allToBuyItems, yearOptions;
      UpdateCategorySections();
      assert Filters() == settings && allToBuyItems == items && yearOptions == options;
    }

    /** The fetched items replace the list, and the filter returns to "not bought". */
    method OnItemsFetched(fetched: seq<ToBuy>)
      modifies this, categoryAdapter
      ensures Valid() && UpToDate() && allToBuyItems == fetched
      ensures Filters() == old(Filters()).(onlyNotBought := true)
      ensures yearOptions == YearOptions(fetched)
    {
      allToBuyItems := fetched;
      UpdateYearFilterOptions();
      SetFilterState(true);
    }

    /** An item deleted at `position` of the full list (`removeAt`). */
    method RemoveItemAt(position: int)
      requires 0 <= position < |allToBuyItems|
      modifies this, categoryAdapter
      ensures Valid() && UpToDate() && Filters() == old(Filters()) && yearOptions == old(yearOptions)
      ensures allToBuyItems == old(allToBuyItems[..position] + allToBuyItems[position + 1..])
    {
      allToBuyItems := allToBuyItems[..position] + allToBuyItems[position + 1..];
      ghost var settings, items, options := Filters(), allToBuyItems, yearOptions;
      UpdateCategorySections();
      assert Filters() == settings && allToBuyItems == items && yearOptions == options;
    }

    /** An item edited at `position` of the full list (`allToBuyItems[position] = updated`). */
    method ReplaceItemAt(position: int, updated: ToBuy)
      requires 0 <= position < |allToBuyItems|
      modifies this, categoryAdapter
      ensures Valid() && UpToDate() && Filters() == old(Filters()) && yearOptions == old(yearOptions)
      ensures allToBuyItems == old(allToBuyItems)[position := updated]
    {
      allToBuyItems := allToBuyItems[position := updated];
      ghost var settings, items, options := Filters(), allToBuyItems, yearOptions;
      UpdateCategorySections();
      assert Filters() == settings && allToBuyItems == items && yearOptions == options;
    }

    /** A click on a section header keeps the screen's sections and total; only the expansion
        changes. */
    method OnSectionHeaderClick(section: Section)
      requires Valid()
      modifies categoryAdapter, categoryAdapter.sections, section
      ensures Valid() && shown == old(shown) && UpToDate() == old(UpToDate())
      ensures forall t :: t in categoryAdapter.sections && t != section ==> !t.isExpanded
      ensures section.isExpanded == !old(section.isExpanded)
    {
      var _ := categoryAdapter.OnHeaderClick(section);
    }
  }
}
