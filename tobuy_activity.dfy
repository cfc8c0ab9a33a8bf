/** The to-buy screen: the sort buttons, the year filter, and the filter / group / sort pipeline that
    turns the fetched items into the sections of the category accordion. */
module ToBuyScreen {
  import opened Opt
  import opened Strings
  import opened KotlinInt
  import opened Sorting
  import opened ToBuyDto

  // ---------------------------------------------------------------------------
  // Sort buttons
  // ---------------------------------------------------------------------------

  /** The sort modes; `NoSort` is the screen's default alphabetical order. */
  datatype SortMode = NoSort | PriceDesc | PriceAsc | DateNewest | DateOldest

  /** The mode after a click on the price button. */
  function NextOnPriceClick(m: SortMode): (r: SortMode)
    ensures r == PriceAsc <==> m == PriceDesc
    ensures r == NoSort <==> m == PriceAsc
    ensures r == PriceDesc <==> m != PriceDesc && m != PriceAsc
  {
    match m
    case PriceDesc => PriceAsc
    case PriceAsc => NoSort
    case _ => PriceDesc
  }

  /** The mode after a click on the date button. */
  function NextOnDateClick(m: SortMode): (r: SortMode)
    ensures r == DateOldest <==> m == DateNewest
    ensures r == NoSort <==> m == DateOldest
    ensures r == DateNewest <==> m != DateNewest && m != DateOldest
  {
    match m
    case DateNewest => DateOldest
    case DateOldest => NoSort
    case _ => DateNewest
  }

  /** Each button cycles through its own two orders and back to the default in three clicks, and a
      click on one button always leaves the other button's orders. */
  lemma SortButtonsCycle(m: SortMode)
    ensures m in {NoSort, PriceDesc, PriceAsc} ==> NextOnPriceClick(NextOnPriceClick(NextOnPriceClick(m))) == m
    ensures m in {NoSort, DateNewest, DateOldest} ==> NextOnDateClick(NextOnDateClick(NextOnDateClick(m))) == m
    ensures NextOnPriceClick(m) !in {DateNewest, DateOldest}
    ensures NextOnDateClick(m) !in {PriceDesc, PriceAsc}
  {
  }

  // ---------------------------------------------------------------------------
  // Years
  // ---------------------------------------------------------------------------

  /** Kotlin's `take(n)`: the first `n` characters, or the whole string when it is shorter. */
  function Take(s: string, n: nat): (r: string)
    ensures |r| == if |s| <= n then |s| else n
    ensures r == s[..|r|]
  {
    if |s| <= n then s else s[..n]
  }

  /** The year of a creation date: the number its first four characters spell, if they spell one;
      nothing for a missing or blank date. */
  function ExtractYear(created: Option<string>): (r: Option<int>)
    ensures IsNullOrBlank(created) ==> r == None
    ensures r.Some? ==> IntMin <= r.value <= IntMax
    ensures r.Some? ==> ParseInt(Take(created.value, 4)) == r
  {
    if IsNullOrBlank(created) then None else ParseInt(Take(created.value, 4))
  }

  lemma {:induction false} FourDigits(y: int)
    requires 1000 <= y <= 9999
    ensures |NatToString(y)| == 4 && IsDigit(NatToString(y)[0])
  {
    assert NatToString(y / 1000) == [DigitChar(y / 1000)];
    assert NatToString(y / 100) == NatToString(y / 100 / 10) + [DigitChar(y / 100 % 10)];
    assert NatToString(y / 10) == NatToString(y / 10 / 10) + [DigitChar(y / 10 % 10)];
    assert NatToString(y) == NatToString(y / 10) + [DigitChar(y % 10)];
  }

  /** A date that starts with a four-digit year (such as "2024-05-01T10:00:00Z") yields that year. */
  lemma ExtractYearOfDate(y: int, rest: string)
    requires 1000 <= y <= 9999
    ensures ExtractYear(Some(IntToString(y) + rest)) == Some(y)
  {
    var s := IntToString(y) + rest;
    FourDigits(y);
    assert !IsWhitespace(s[0]);
    assert Take(s, 4) == IntToString(y);
    ParseIntToString(y);
  }

  /** The years of the items' creation dates, in item order, skipping dates without one. */
  function Years(items: seq<ToBuy>): (ys: seq<int>)
    ensures forall y :: y in ys ==> IntMin <= y <= IntMax
  {
    if items == [] then []
    else
      var rest := Years(items[1..]);
      match ExtractYear(items[0].created)
      case Some(y) => [y] + rest
      case None => rest
  }

  /** Some item was created in year `y`. */
  ghost predicate HasYear(items: seq<ToBuy>, y: int)
  {
    exists i :: 0 <= i < |items| && ExtractYear(items[i].created) == Some(y)
  }

  lemma {:induction false} YearsOfItems(items: seq<ToBuy>, y: int)
    ensures y in Years(items) <==> HasYear(items, y)
    decreases |items|
  {
    if items != [] {
      YearsOfItems(items[1..], y);
      if HasYear(items[1..], y) {
        var i :| 0 <= i < |items[1..]| && ExtractYear(items[1..][i].created) == Some(y);
        assert ExtractYear(items[i + 1].created) == Some(y);
      }
      if HasYear(items, y) && ExtractYear(items[0].created) != Some(y) {
        var i :| 0 <= i < |items| && ExtractYear(items[i].created) == Some(y);
        assert ExtractYear(items[1..][i - 1].created) == Some(y);
      }
    }
  }

  /** Kotlin's `distinct()`: the first occurrence of each value, in order. */
  function Distinct(s: seq<int>): (r: seq<int>)
    ensures forall x :: x in r <==> x in s
    ensures forall x :: multiset(r)[x] <= 1
  {
    if s == [] then []
    else
      var d := Distinct(s[..|s| - 1]);
      if s[|s| - 1] in s[..|s| - 1] then
        assert forall x :: x in s <==> x in s[..|s| - 1] || x == s[|s| - 1];
        d
      else
        d + [s[|s| - 1]]
  }

  lemma TwiceInMultiset(s: seq<int>, i: int, j: int)
    requires 0 <= i < j < |s| && s[i] == s[j]
    ensures multiset(s)[s[i]] >= 2
  {
    assert s == s[..j] + s[j..];
    assert s[i] in s[..j];
    assert s[j] == s[j..][0];
    assert multiset(s) == multiset(s[..j]) + multiset(s[j..]);
  }

  /** The descending integer order of `sortedDescending()`. */
  predicate Descending(a: int, b: int)
  {
    a >= b
  }

  /** The years offered by the filter: each year of some item once, latest first. */
  function YearValues(items: seq<ToBuy>): (ys: seq<int>)
    ensures forall i, j :: 0 <= i < j < |ys| ==> ys[i] > ys[j]
    ensures forall y :: y in ys <==> y in Years(items)
  {
    var d := Distinct(Years(items));
    assert TotalPreorder(Descending);
    SortBySorted(d, Descending);
    var ys := SortBy(d, Descending);
    forall i, j | 0 <= i < j < |ys|
      ensures ys[i] > ys[j]
    {
      if ys[i] == ys[j] {
        TwiceInMultiset(ys, i, j);
        assert false;
      }
    }
    assert forall y :: y in ys <==> y in multiset(d);
    ys
  }

  /** The entries of the year spinner: "All", then the years as decimal text. */
  function YearOptions(items: seq<ToBuy>): (opts: seq<string>)
    ensures |opts| == |YearValues(items)| + 1 && opts[0] == "All"
  {
    ["All"] + YearTexts(YearValues(items))
  }

  /** Kotlin's `map { it.toString() }` over years. */
  function YearTexts(ys: seq<int>): (ts: seq<string>)
    ensures |ts| == |ys| && forall k :: 0 <= k < |ys| ==> ts[k] == IntToString(ys[k])
  {
    if ys == [] then [] else [IntToString(ys[0])] + YearTexts(ys[1..])
  }

  /** The year filter an entry of the spinner selects: none for "All", the entry's number otherwise. */
  function SelectedYearOf(value: string): Option<int>
  {
    if value == "All" then None else ParseInt(value)
  }

  /** Picking the spinner entry at `k` filters on exactly the year it shows: the first entry selects
      every year and every other entry the year of some item. */
  lemma SelectingAYear(items: seq<ToBuy>, k: int)
    requires 0 <= k < |YearOptions(items)|
    ensures k == 0 ==> SelectedYearOf(YearOptions(items)[k]) == None
    ensures k > 0 ==> SelectedYearOf(YearOptions(items)[k]) == Some(YearValues(items)[k - 1])
    ensures k > 0 ==> HasYear(items, YearValues(items)[k - 1])
  {
    if k > 0 {
      var y := YearValues(items)[k - 1];
      assert YearOptions(items)[k] == YearTexts(YearValues(items))[k - 1];
      assert y in Years(items);
      YearsOfItems(items, y);
      ParseIntToString(y);
      assert IntToString(y)[0] != 'A';
    }
  }

  // ---------------------------------------------------------------------------
  // Filter
  // ---------------------------------------------------------------------------

  /** An item is shown when it is not bought (or bought items are shown too), its title contains the
      query ignoring case (or the query is empty), and it was created in the selected year (or no
      year is selected). */
  predicate Passes(item: ToBuy, onlyNotBought: bool, query: string, year: Option<int>)
  {
    (!onlyNotBought || item.bought.None?) &&
    (query == [] || ContainsIgnoreCase(item.title, query)) &&
    (year.None? || ExtractYear(item.created) == year)
  }

  /** The items that pass, in their order. */
  function Filter(items: seq<ToBuy>, onlyNotBought: bool, query: string, year: Option<int>): (r: seq<ToBuy>)
    ensures |r| <= |items|
    ensures forall x :: x in r <==> x in items && Passes(x, onlyNotBought, query, year)
  {
    if items == [] then []
    else
      var rest := Filter(items[1..], onlyNotBought, query, year);
      assert forall x :: x in items <==> x == items[0] || x in items[1..];
      if Passes(items[0], onlyNotBought, query, year) then [items[0]] + rest else rest
  }

  /** Without any filter every item is shown, in order. */
  lemma {:induction false} FilterNothing(items: seq<ToBuy>)
    ensures Filter(items, false, "", None) == items
    decreases |items|
  {
    if items != [] {
      FilterNothing(items[1..]);
      assert items == [items[0]] + items[1..];
    }
  }

  /** Adding an item puts it at the end of the shown items when it passes, and changes nothing
      otherwise. */
  lemma {:induction false} FilterAppend(items: seq<ToBuy>, x: ToBuy, onlyNotBought: bool, query: string, year: Option<int>)
    ensures Filter(items + [x], onlyNotBought, query, year) ==
      Filter(items, onlyNotBought, query, year) + if Passes(x, onlyNotBought, query, year) then [x] else []
    decreases |items|
  {
    if items == [] {
      assert items + [x] == [x];
      assert [x][1..] == [];
    } else {
      assert (items + [x])[1..] == items[1..] + [x];
      FilterAppend(items[1..], x, onlyNotBought, query, year);
    }
  }

  // ---------------------------------------------------------------------------
  // Grouping by category
  // ---------------------------------------------------------------------------

  const Uncategorized: string := "Uncategorized"

  /** The categories an item is filed under: its own, or a single unnamed-default one when it has none. */
  function CategoriesOrDefault(item: ToBuy): (cats: seq<Category>)
    ensures cats != []
  {
    if item.categories != [] then item.categories else [Category(None, Some(Uncategorized), None, None)]
  }

  /** The group name of each category: its name, or "Uncategorized" when it has none. */
  function CategoryNames(cats: seq<Category>): (names: seq<string>)
    ensures |names| == |cats| && forall k :: 0 <= k < |cats| ==> names[k] == cats[k].name.GetOr(Uncategorized)
  {
    if cats == [] then [] else CategoryNames(cats[..|cats| - 1]) + [cats[|cats| - 1].name.GetOr(Uncategorized)]
  }

  /** The names of the groups an item joins, once per category. */
  function NamesOf(item: ToBuy): seq<string>
  {
    CategoryNames(CategoriesOrDefault(item))
  }

  /** An item without categories, or one of whose categories has no name, is filed under
      "Uncategorized"; a named category files it under its name. */
  lemma NamesOfItem(item: ToBuy)
    ensures item.categories == [] ==> NamesOf(item) == [Uncategorized]
    ensures forall c :: c in item.categories ==> c.name.GetOr(Uncategorized) in NamesOf(item)
    ensures forall n :: n in NamesOf(item) && n != Uncategorized ==>
      exists c :: c in item.categories && c.name == Some(n)
  {
    var cats := CategoriesOrDefault(item);
    var names := NamesOf(item);
    forall c | c in item.categories
      ensures c.name.GetOr(Uncategorized) in names
    {
      var k :| 0 <= k < |cats| && cats[k] == c;
      assert names[k] == c.name.GetOr(Uncategorized);
    }
    forall n | n in names && n != Uncategorized
      ensures exists c :: c in item.categories && c.name == Some(n)
    {
      var k :| 0 <= k < |names| && names[k] == n;
      assert cats[k] in item.categories && cats[k].name == Some(n);
    }
  }

  /** A name-keyed map that remembers insertion order (Kotlin's `mutableMapOf`), as a list of entries. */
  type Groups = seq<(string, seq<ToBuy>)>

  function Keys(g: Groups): (ks: seq<string>)
    ensures |ks| == |g| && forall k :: 0 <= k < |g| ==> ks[k] == g[k].0
  {
    if g == [] then [] else [g[0].0] + Keys(g[1..])
  }

  /** The list stored under `name`, or the empty list. */
  function Lookup(g: Groups, name: string): seq<ToBuy>
  {
    if g == [] then [] else if g[0].0 == name then g[0].1 else Lookup(g[1..], name)
  }

  ghost predicate DistinctKeys(g: Groups)
  {
    var ks := Keys(g);
    forall i, j :: 0 <= i < j < |ks| ==> ks[i] != ks[j]
  }

  /** `categoryMap.getOrPut(name) { mutableListOf() }.add(x)`: appends `x` to the list under `name`,
      opening a new entry at the end when there is none. */
  function GetOrPutAdd(g: Groups, name: string, x: ToBuy): (r: Groups)
    ensures forall n :: Lookup(r, n) == if n == name then Lookup(g, n) + [x] else Lookup(g, n)
    ensures Keys(r) == if name in Keys(g) then Keys(g) else Keys(g) + [name]
    ensures DistinctKeys(g) ==> DistinctKeys(r)
  {
    if g == [] then [(name, [x])]
    else if g[0].0 == name then [(name, g[0].1 + [x])] + g[1..]
    else
      var r := [g[0]] + GetOrPutAdd(g[1..], name, x);
      assert Keys(g) == [g[0].0] + Keys(g[1..]);
      r
  }

  /** Filing `x` under each of `names` in turn. */
  function AddUnder(g: Groups, x: ToBuy, names: seq<string>): Groups
  {
    if names == [] then g else GetOrPutAdd(AddUnder(g, x, names[..|names| - 1]), names[|names| - 1], x)
  }

  /** The grouping of `items`, item by item. */
  function Grouped(items: seq<ToBuy>): Groups
  {
    if items == [] then [] else AddUnder(Grouped(items[..|items| - 1]), items[|items| - 1], NamesOf(items[|items| - 1]))
  }

  /** The grouping loop: every item is added to the group of each of its categories. */
  method GroupByCategory(filtered: seq<ToBuy>) returns (categoryMap: Groups)
    ensures categoryMap == Grouped(filtered)
  {
    categoryMap := [];
    var i := 0;
    while i < |filtered|
      invariant 0 <= i <= |filtered|
      invariant categoryMap == Grouped(filtered[..i])
    {
      categoryMap := FileUnderCategories(categoryMap, filtered[i]);
      GroupedPrefix(filtered, i);
      i := i + 1;
    }
    assert filtered[..i] == filtered;
  }

  /** Grouping one more item files it under each of its names. */
  lemma GroupedPrefix(items: seq<ToBuy>, i: int)
    requires 0 <= i < |items|
    ensures Grouped(items[..i + 1]) == AddUnder(Grouped(items[..i]), items[i], NamesOf(items[i]))
  {
    assert items[..i + 1][..i] == items[..i];
  }

  /** The inner loop of the grouping: `item` is added to the group of each of its categories. */
  method FileUnderCategories(categoryMap: Groups, item: ToBuy) returns (r: Groups)
    ensures r == AddUnder(categoryMap, item, NamesOf(item))
  {
    var categories := CategoriesOrDefault(item);
    r := categoryMap;
    var j := 0;
    while j < |categories|
      invariant 0 <= j <= |categories|
      invariant r == AddUnder(categoryMap, item, CategoryNames(categories[..j]))
    {
      var name := categories[j].name.GetOr(Uncategorized);
      assert CategoryNames(categories[..j + 1]) == CategoryNames(categories[..j]) + [name] by {
        assert categories[..j + 1][..j] == categories[..j];
      }
      r := GetOrPutAdd(r, name, item);
      j := j + 1;
    }
    assert categories[..j] == categories;
  }

  /** `n` occurs `Count(names, n)` times among `names`. */
  function Count(names: seq<string>, n: string): nat
  {
    if names == [] then 0 else Count(names[..|names| - 1], n) + if names[|names| - 1] == n then 1 else 0
  }

  /** `k` copies of `x`. */
  function Copies(x: ToBuy, k: nat): (r: seq<ToBuy>)
    ensures |r| == k && forall i :: 0 <= i < k ==> r[i] == x
  {
    seq(k, i => x)
  }

  /** The reference contents of the group `n`: each item, in order, once for every one of its
      categories that carries the name `n`. */
  function Occurrences(items: seq<ToBuy>, n: string): seq<ToBuy>
  {
    if items == [] then []
    else Occurrences(items[..|items| - 1], n) + Copies(items[|items| - 1], Count(NamesOf(items[|items| - 1]), n))
  }

  lemma {:induction false} AddUnderLookup(g: Groups, x: ToBuy, names: seq<string>, n: string)
    ensures Lookup(AddUnder(g, x, names), n) == Lookup(g, n) + Copies(x, Count(names, n))
    decreases |names|
  {
    if names != [] {
      AddUnderLookup(g, x, names[..|names| - 1], n);
    }
  }

  lemma {:induction false} AddUnderKeys(g: Groups, x: ToBuy, names: seq<string>)
    requires DistinctKeys(g)
    ensures DistinctKeys(AddUnder(g, x, names))
    ensures forall k :: k in Keys(AddUnder(g, x, names)) <==> k in Keys(g) || k in names
    decreases |names|
  {
    if names != [] {
      AddUnderKeys(g, x, names[..|names| - 1]);
      assert forall k :: k in names <==> k in names[..|names| - 1] || k == names[|names| - 1];
    }
  }

  /** Each group holds exactly the reference contents: the grouping loses no item, files none
      wrongly, and an item with two categories of the same name is filed twice. */
  lemma {:induction false} GroupedContents(items: seq<ToBuy>, n: string)
    ensures Lookup(Grouped(items), n) == Occurrences(items, n)
    decreases |items|
  {
    if items != [] {
      var last := items[|items| - 1];
      GroupedContents(items[..|items| - 1], n);
      AddUnderLookup(Grouped(items[..|items| - 1]), last, NamesOf(last), n);
    }
  }

  /** The groups have distinct names, and there is a group exactly for the names some item is
      filed under. */
  lemma {:induction false} GroupedKeys(items: seq<ToBuy>)
    ensures DistinctKeys(Grouped(items))
    ensures forall n :: n in Keys(Grouped(items)) <==> Occurrences(items, n) != []
    decreases |items|
  {
    if items != [] {
      var init, last := items[..|items| - 1], items[|items| - 1];
      GroupedKeys(init);
      AddUnderKeys(Grouped(init), last, NamesOf(last));
      forall n
        ensures n in Keys(Grouped(items)) <==> Occurrences(items, n) != []
      {
        CountPositive(NamesOf(last), n);
      }
    }
  }

  lemma {:induction false} CountPositive(names: seq<string>, n: string)
    ensures Count(names, n) > 0 <==> n in names
    decreases |names|
  {
    if names != [] {
      CountPositive(names[..|names| - 1], n);
      assert forall k :: k in names <==> k in names[..|names| - 1] || k == names[|names| - 1];
    }
  }

  /** An item is in group `n` exactly when it is one of the items and one of its categories is
      filed under `n`. */
  lemma InConcat<T>(a: seq<T>, b: seq<T>, x: T)
    ensures x in a + b <==> x in a || x in b
  {
  }

  lemma InInitOrLast<T>(s: seq<T>, x: T)
    requires s != []
    ensures x in s <==> x in s[..|s| - 1] || x == s[|s| - 1]
  {
    assert s == s[..|s| - 1] + [s[|s| - 1]];
  }

  lemma {:induction false} OccurrencesMembership(items: seq<ToBuy>, n: string, x: ToBuy)
    ensures x in Occurrences(items, n) <==> x in items && n in NamesOf(x)
    decreases |items|
  {
    if items != [] {
      var init, last := items[..|items| - 1], items[|items| - 1];
      OccurrencesMembership(init, n, x);
      var c := Count(NamesOf(last), n);
      CountPositive(NamesOf(last), n);
      var occ, copies := Occurrences(init, n), Copies(last, c);
      assert Occurrences(items, n) == occ + copies;
      InConcat(occ, copies, x);
      InInitOrLast(items, x);
      if x == last {
        assert x in copies <==> c > 0 by {
          if c > 0 {
            assert copies[0] == last;
          }
        }
      } else {
        assert x !in copies;
      }
    }
  }

  /** A group entry holds what looking its name up gives, since names are not repeated. */
  lemma {:induction false} EntryIsLookup(g: Groups, i: int)
    requires DistinctKeys(g) && 0 <= i < |g|
    ensures g[i].1 == Lookup(g, g[i].0)
    decreases |g|
  {
    if i > 0 {
      assert Keys(g)[0] != Keys(g)[i];
      assert DistinctKeys(g[1..]) by {
        var ks := Keys(g[1..]);
        forall a, b | 0 <= a < b < |ks|
          ensures ks[a] != ks[b]
        {
          assert ks[a] == Keys(g)[a + 1] && ks[b] == Keys(g)[b + 1];
        }
      }
      EntryIsLookup(g[1..], i - 1);
    }
  }

  // ---------------------------------------------------------------------------
  // Totals
  // ---------------------------------------------------------------------------

  /** An item's price, a missing one counting as 0. */
  function PriceOf(item: ToBuy): int
  {
    item.estimatedPrice.GetOr(0)
  }

  /** The exact sum of `f` over `s`. */
  function SumOf<T>(s: seq<T>, f: T -> int): int
  {
    if s == [] then 0 else SumOf(s[..|s| - 1], f) + f(s[|s| - 1])
  }

  /** The exact sum of the prices. */
  function PriceSum(items: seq<ToBuy>): int
  {
    SumOf(items, PriceOf)
  }

  /** Kotlin's `sumOf { it.estimatedPrice ?: 0 }` over Ints: every addition wraps around at 32 bits. */
  function Total(items: seq<ToBuy>): (t: int)
    ensures IntMin <= t <= IntMax
  {
    if items == [] then 0 else ToInt32(Total(items[..|items| - 1]) + PriceOf(items[|items| - 1]))
  }

  lemma ToInt32Congruent(a: int, b: int)
    requires (a - b) % 0x1_0000_0000 == 0
    ensures ToInt32(a) == ToInt32(b)
  {
    var k := (a - b) / 0x1_0000_0000;
    assert a == b + k * 0x1_0000_0000;
    assert a % 0x1_0000_0000 == b % 0x1_0000_0000;
  }

  /** The running total is the exact sum wrapped to 32 bits once; in particular it is the exact sum
      whenever that fits in an Int. */
  lemma {:induction false} TotalIsWrappedSum(items: seq<ToBuy>)
    ensures Total(items) == ToInt32(PriceSum(items))
    ensures IntMin <= PriceSum(items) <= IntMax ==> Total(items) == PriceSum(items)
    decreases |items|
  {
    if items != [] {
      var init, p := items[..|items| - 1], PriceOf(items[|items| - 1]);
      TotalIsWrappedSum(init);
      var s := PriceSum(init);
      assert (ToInt32(s) + p - (s + p)) % 0x1_0000_0000 == 0;
      ToInt32Congruent(ToInt32(s) + p, s + p);
    }
  }

  lemma {:induction false} SumOfConcat<T>(a: seq<T>, b: seq<T>, f: T -> int)
    ensures SumOf(a + b, f) == SumOf(a, f) + SumOf(b, f)
    decreases |b|
  {
    if b == [] {
      assert a + b == a;
    } else {
      assert (a + b)[..|a + b| - 1] == a + b[..|b| - 1];
      SumOfConcat(a, b[..|b| - 1], f);
    }
  }

  lemma MultisetRemoveAt<T>(b: seq<T>, i: int)
    requires 0 <= i < |b|
    ensures b == b[..i] + [b[i]] + b[i + 1..]
    ensures multiset(b) == multiset(b[..i] + b[i + 1..]) + multiset{b[i]}
  {
    assert b == b[..i] + [b[i]] + b[i + 1..];
  }

  lemma MultisetRemoveLast<T>(a: seq<T>)
    requires a != []
    ensures multiset(a) == multiset(a[..|a| - 1]) + multiset{a[|a| - 1]}
  {
    assert a == a[..|a| - 1] + [a[|a| - 1]];
  }

  /** Reordering a sequence does not change a sum over it. */
  lemma {:induction false} SumOfPermutation<T>(a: seq<T>, b: seq<T>, f: T -> int)
    requires multiset(a) == multiset(b)
    ensures SumOf(a, f) == SumOf(b, f)
    decreases |a|
  {
    if a == [] {
      assert |b| == |multiset(b)|;
    } else {
      var last := a[|a| - 1];
      MultisetRemoveLast(a);
      assert last in multiset(b);
      var i :| 0 <= i < |b| && b[i] == last;
      MultisetRemoveAt(b, i);
      assert multiset(a[..|a| - 1]) == multiset(a) - multiset{last};
      assert multiset(b[..i] + b[i + 1..]) == multiset(b) - multiset{last};
      SumOfPermutation(a[..|a| - 1], b[..i] + b[i + 1..], f);
      SumOfRemoveAt(b, i, f);
    }
  }

  /** A sum is the sum without entry `i`, plus that entry. */
  lemma SumOfRemoveAt<T>(b: seq<T>, i: int, f: T -> int)
    requires 0 <= i < |b|
    ensures SumOf(b, f) == SumOf(b[..i] + b[i + 1..], f) + f(b[i])
  {
    assert b == b[..i] + [b[i]] + b[i + 1..];
    SumOfConcat(b[..i] + [b[i]], b[i + 1..], f);
    SumOfConcat(b[..i], [b[i]], f);
    SumOfConcat(b[..i], b[i + 1..], f);
    assert SumOf([b[i]], f) == f(b[i]) by {
      assert [b[i]][..0] == [];
    }
  }

  /** The total over a reordering of the items is the same total. */
  lemma TotalPermutation(a: seq<ToBuy>, b: seq<ToBuy>)
    requires multiset(a) == multiset(b)
    ensures Total(a) == Total(b)
  {
    TotalIsWrappedSum(a);
    TotalIsWrappedSum(b);
    SumOfPermutation(a, b, PriceOf);
  }

  // ---------------------------------------------------------------------------
  // Timestamps and categories of a group
  // ---------------------------------------------------------------------------

  /** The time keys of the items' creation dates; `ts` is the screen's date parser, which falls
      back to 0 for a missing or unreadable date. */
  function Stamps(items: seq<ToBuy>, ts: Option<string> -> int): (r: seq<int>)
    ensures |r| == |items| && forall k :: 0 <= k < |items| ==> r[k] == ts(items[k].created)
  {
    if items == [] then [] else [ts(items[0].created)] + Stamps(items[1..], ts)
  }

  function MaxOf(s: seq<int>): (m: int)
    requires s != []
    ensures m in s && forall x :: x in s ==> x <= m
  {
    if |s| == 1 then s[0]
    else
      var rest := MaxOf(s[1..]);
      assert forall x :: x in s ==> x == s[0] || x in s[1..];
      if s[0] >= rest then s[0] else rest
  }

  function MinOf(s: seq<int>): (m: int)
    requires s != []
    ensures m in s && forall x :: x in s ==> m <= x
  {
    if |s| == 1 then s[0]
    else
      var rest := MinOf(s[1..]);
      assert forall x :: x in s ==> x == s[0] || x in s[1..];
      if s[0] <= rest then s[0] else rest
  }

  /** The time keys of a group, or `[0]` for an empty one (`ifEmpty { listOf(0L) }`). */
  function StampsOrZero(items: seq<ToBuy>, ts: Option<string> -> int): (r: seq<int>)
    ensures r != []
  {
    if items == [] then [0] else Stamps(items, ts)
  }

  /** Every category of every item, in order (`flatMap { it.categories }`). */
  function AllCategories(items: seq<ToBuy>): seq<Category>
  {
    if items == [] then [] else items[0].categories + AllCategories(items[1..])
  }

  /** The first category named `name`, if any. */
  function FirstNamed(cats: seq<Category>, name: string): (r: Option<Category>)
    ensures r.Some? ==> r.value in cats && r.value.name == Some(name)
    ensures r.None? <==> forall c :: c in cats ==> c.name != Some(name)
  {
    if cats == [] then None
    else if cats[0].name == Some(name) then Some(cats[0])
    else
      assert forall c :: c in cats ==> c == cats[0] || c in cats[1..];
      FirstNamed(cats[1..], name)
  }

  /** The category a group is shown under: the first category of any item (filtered or not) that
      carries the group's name, or a bare category of that name. */
  function CategoryFor(all: seq<ToBuy>, name: string): (c: Category)
    ensures c.name == Some(name)
    ensures c in AllCategories(all) || c == Category(None, Some(name), None, None)
  {
    match FirstNamed(AllCategories(all), name)
    case Some(c) => c
    case None => Category(None, Some(name), None, None)
  }

  // ---------------------------------------------------------------------------
  // Sorting
  // ---------------------------------------------------------------------------

  /** The order of the items inside a section for a sort mode: price or date, either way, or the
      lower-cased title by default. */
  predicate ItemLeq(mode: SortMode, ts: Option<string> -> int, a: ToBuy, b: ToBuy)
  {
    match mode
    case PriceDesc => PriceOf(a) >= PriceOf(b)
    case PriceAsc => PriceOf(a) <= PriceOf(b)
    case DateNewest => ts(a.created) >= ts(b.created)
    case DateOldest => ts(a.created) <= ts(b.created)
    case NoSort => StrLeq(Lower(a.title), Lower(b.title))
  }

  function ItemOrder(mode: SortMode, ts: Option<string> -> int): (ToBuy, ToBuy) -> bool
  {
    (a, b) => ItemLeq(mode, ts, a, b)
  }

  lemma ItemOrderTotal(mode: SortMode, ts: Option<string> -> int)
    ensures TotalPreorder(ItemOrder(mode, ts))
  {
    StrLeqTotalOrder();
  }

  /** What a section is sorted by. */
  datatype Meta = Meta(category: Category, items: seq<ToBuy>, totalPrice: int, mostRecentTs: int, oldestTs: int)

  /** The order of the sections for a sort mode: total price either way, latest update first,
      earliest creation first, or the lower-cased category name by default. */
  predicate MetaLeq(mode: SortMode, a: Meta, b: Meta)
  {
    match mode
    case PriceDesc => a.totalPrice >= b.totalPrice
    case PriceAsc => a.totalPrice <= b.totalPrice
    case DateNewest => a.mostRecentTs >= b.mostRecentTs
    case DateOldest => a.oldestTs <= b.oldestTs
    case NoSort => StrLeq(Lower(a.category.name.GetOr("")), Lower(b.category.name.GetOr("")))
  }

  function MetaOrder(mode: SortMode): (Meta, Meta) -> bool
  {
    (a, b) => MetaLeq(mode, a, b)
  }

  lemma MetaOrderTotal(mode: SortMode)
    ensures TotalPreorder(MetaOrder(mode))
  {
    StrLeqTotalOrder();
  }

  /** The section of one group: its category, its items in the mode's order, and the keys the
      sections are sorted by. */
  function MetaOf(all: seq<ToBuy>, entry: (string, seq<ToBuy>), mode: SortMode, ts: Option<string> -> int): Meta
  {
    var items := entry.1;
    Meta(CategoryFor(all, entry.0), SortBy(items, ItemOrder(mode, ts)), Total(items),
      MaxOf(StampsOrZero(items, ts)), MinOf(StampsOrZero(items, ts)))
  }

  function Metas(all: seq<ToBuy>, g: Groups, mode: SortMode, ts: Option<string> -> int): (ms: seq<Meta>)
    ensures |ms| == |g|
  {
    if g == [] then [] else [MetaOf(all, g[0], mode, ts)] + Metas(all, g[1..], mode, ts)
  }

  /** Entry `k` of the metas is the meta of group `k`. */
  lemma {:induction false} MetasAt(all: seq<ToBuy>, g: Groups, mode: SortMode, ts: Option<string> -> int, k: int)
    requires 0 <= k < |g|
    ensures Metas(all, g, mode, ts)[k] == MetaOf(all, g[k], mode, ts)
  {
    if k > 0 {
      MetasAt(all, g[1..], mode, ts, k - 1);
    }
  }

  /** The sections the screen shows for the items `all` under the given filters and sort mode. */
  function SectionsFor(all: seq<ToBuy>, onlyNotBought: bool, query: string, year: Option<int>,
                       mode: SortMode, ts: Option<string> -> int): seq<Meta>
  {
    var g := Grouped(Filter(all, onlyNotBought, query, year));
    SortBy(Metas(all, g, mode, ts), MetaOrder(mode))
  }

  lemma InSortBy<T>(s: seq<T>, le: (T, T) -> bool, x: T)
    requires x in SortBy(s, le)
    ensures exists k :: 0 <= k < |s| && s[k] == x
  {
    assert x in multiset(SortBy(s, le));
  }

  /** The section of a group entry: it is shown under the entry's name, holds the entry's items in
      the mode's order and carries their total. */
  lemma SectionOfGroup(all: seq<ToBuy>, g: Groups, mode: SortMode, ts: Option<string> -> int, m: Meta)
    requires DistinctKeys(g) && m in Metas(all, g, mode, ts)
    ensures m.category.name.Some?
    ensures multiset(m.items) == multiset(Lookup(g, m.category.name.value))
    ensures m.totalPrice == Total(m.items)
    ensures Sorted(m.items, ItemOrder(mode, ts))
  {
    var ms := Metas(all, g, mode, ts);
    var k :| 0 <= k < |ms| && ms[k] == m;
    MetasAt(all, g, mode, ts, k);
    EntryIsLookup(g, k);
    ItemOrderTotal(mode, ts);
    SortBySorted(g[k].1, ItemOrder(mode, ts));
    TotalPermutation(g[k].1, m.items);
  }

  /** The sections come in the mode's order, each section's items too; in the default mode that is
      alphabetical (ignoring case) by title. */
  lemma SectionsSorted(all: seq<ToBuy>, onlyNotBought: bool, query: string, year: Option<int>,
                       mode: SortMode, ts: Option<string> -> int)
    ensures Sorted(SectionsFor(all, onlyNotBought, query, year, mode, ts), MetaOrder(mode))
    ensures forall m :: m in SectionsFor(all, onlyNotBought, query, year, mode, ts) ==>
      Sorted(m.items, ItemOrder(mode, ts))
  {
    var filtered := Filter(all, onlyNotBought, query, year);
    var g := Grouped(filtered);
    var ms := Metas(all, g, mode, ts);
    var sections := SectionsFor(all, onlyNotBought, query, year, mode, ts);
    assert sections == SortBy(ms, MetaOrder(mode));
    MetaOrderTotal(mode);
    SortBySorted(ms, MetaOrder(mode));
    GroupedKeys(filtered);
    forall m | m in sections
      ensures Sorted(m.items, ItemOrder(mode, ts))
    {
      InSortBy(ms, MetaOrder(mode), m);
      SectionOfGroup(all, g, mode, ts, m);
    }
  }

  /** Each section is a group of the filtered items: it is shown under that group's name, holds
      exactly the group's items (reordered), and its total is the group's total, which is also the
      total its header computes over the reordered items. */
  lemma SectionContents(all: seq<ToBuy>, onlyNotBought: bool, query: string, year: Option<int>,
                        mode: SortMode, ts: Option<string> -> int)
    ensures var filtered := Filter(all, onlyNotBought, query, year);
      forall m :: m in SectionsFor(all, onlyNotBought, query, year, mode, ts) ==>
        m.category.name.Some? &&
        multiset(m.items) == multiset(Occurrences(filtered, m.category.name.value)) &&
        m.totalPrice == Total(m.items)
  {
    var filtered := Filter(all, onlyNotBought, query, year);
    var g := Grouped(filtered);
    var ms := Metas(all, g, mode, ts);
    var sections := SectionsFor(all, onlyNotBought, query, year, mode, ts);
    assert sections == SortBy(ms, MetaOrder(mode));
    GroupedKeys(filtered);
    forall m | m in sections
      ensures m.category.name.Some?
      ensures multiset(m.items) == multiset(Occurrences(filtered, m.category.name.value))
      ensures m.totalPrice == Total(m.items)
    {
      InSortBy(ms, MetaOrder(mode), m);
      SectionOfGroup(all, g, mode, ts, m);
      GroupedContents(filtered, m.category.name.value);
    }
  }

  /** Every name some shown item is filed under has a section. */
  lemma EveryGroupHasSection(all: seq<ToBuy>, onlyNotBought: bool, query: string, year: Option<int>,
                             mode: SortMode, ts: Option<string> -> int, n: string)
    requires Occurrences(Filter(all, onlyNotBought, query, year), n) != []
    ensures exists m :: m in SectionsFor(all, onlyNotBought, query, year, mode, ts) && m.category.name == Some(n)
  {
    var filtered := Filter(all, onlyNotBought, query, year);
    var g := Grouped(filtered);
    var ms := Metas(all, g, mode, ts);
    var sections := SectionsFor(all, onlyNotBought, query, year, mode, ts);
    assert sections == SortBy(ms, MetaOrder(mode));
    GroupedKeys(filtered);
    assert n in Keys(g);
    var k :| 0 <= k < |g| && Keys(g)[k] == n;
    MetasAt(all, g, mode, ts, k);
    assert ms[k] in multiset(sections);
  }
}
