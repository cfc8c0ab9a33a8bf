/** The category picker of the to-buy editor: a list of all categories and a selection that a click
    toggles by category id. Both lists belong to the caller and are shared with the adapter. */
module CategorySelection {
  import opened Opt
  import opened ToBuyDto
  import opened MutableLists

  /** `selected.any { it.id == id }`: ids are compared as nullable values, so null matches null. */
  predicate IsSelected(selected: seq<Category>, id: Option<Uuid>)
  {
    exists k :: 0 <= k < |selected| && selected[k].id == id
  }

  /** `removeAll { it.id == id }`: the entries with another id, in their order. */
  function WithoutId(s: seq<Category>, id: Option<Uuid>): (r: seq<Category>)
    ensures |r| <= |s|
    ensures !IsSelected(r, id)
    ensures forall c :: c in r <==> c in s && c.id != id
  {
    if s == [] then []
    else (if s[0].id == id then [] else [s[0]]) + WithoutId(s[1..], id)
  }

  /** The selection after a click on `c`: every entry with its id leaves when one is there,
      otherwise `c` joins at the end. */
  function Clicked(selected: seq<Category>, c: Category): (r: seq<Category>)
    ensures IsSelected(r, c.id) <==> !IsSelected(selected, c.id)
    ensures forall d: Category :: d.id != c.id ==> (d in r <==> d in selected)
  {
    if IsSelected(selected, c.id) then WithoutId(selected, c.id)
    else
      assert (selected + [c])[|selected|] == c;
      selected + [c]
  }

  /** Removing an id that is not there changes nothing. */
  lemma {:induction false} WithoutAbsentId(s: seq<Category>, id: Option<Uuid>)
    requires !IsSelected(s, id)
    ensures WithoutId(s, id) == s
  {
    if s != [] {
      assert !IsSelected(s[1..], id) by {
        forall k | 0 <= k < |s[1..]|
          ensures s[1..][k].id != id
        {
          assert s[1..][k] == s[k + 1];
        }
      }
      WithoutAbsentId(s[1..], id);
      assert s[0].id != id;
      assert s == [s[0]] + s[1..];
    }
  }

  /** Removing an id after appending an entry with that id drops the entry again. */
  lemma {:induction false} WithoutIdAppended(s: seq<Category>, c: Category)
    ensures WithoutId(s + [c], c.id) == WithoutId(s, c.id)
  {
    if s == [] {
      assert [c][1..] == [];
    } else {
      assert (s + [c])[1..] == s[1..] + [c];
      WithoutIdAppended(s[1..], c);
    }
  }

  /** Two clicks on a category that was not selected give back the very same selection. */
  lemma ClickTwiceRestores(selected: seq<Category>, c: Category)
    requires !IsSelected(selected, c.id)
    ensures Clicked(Clicked(selected, c), c) == selected
  {
    WithoutIdAppended(selected, c);
    WithoutAbsentId(selected, c.id);
  }

  /** Two clicks on a selected category drop its duplicates and leave it selected, at the end. */
  lemma ClickTwiceReselects(selected: seq<Category>, c: Category)
    requires IsSelected(selected, c.id)
    ensures Clicked(Clicked(selected, c), c) == WithoutId(selected, c.id) + [c]
  {
  }

  /** Selection goes by id alone: with a null-id category selected, a click on any other null-id
      category deselects it. */
  lemma NullIdsCollide(selected: seq<Category>, c: Category, d: Category)
    requires c.id.None? && d.id.None? && d in selected
    ensures IsSelected(selected, c.id) && d !in Clicked(selected, c)
  {
    var k :| 0 <= k < |selected| && selected[k] == d;
    assert selected[k].id == c.id;
  }

  /** The adapter over the caller's two lists. */
  class CategorySelectionAdapter {
    const allCategories: MutableList<Category>
    const selectedCategories: MutableList<Category>

    constructor(allCategories: MutableList<Category>, selectedCategories: MutableList<Category>)
      ensures this.allCategories == allCategories && this.selectedCategories == selectedCategories
    {
      this.allCategories := allCategories;
      this.selectedCategories := selectedCategories;
    }

    /** Appends a category to the offered ones. */
    method AddCategory(category: Category)
      modifies allCategories
      ensures allCategories.elems == old(allCategories.elems) + [category]
    {
      allCategories.Add(category);
    }

    /** The selection list itself, not a copy: later clicks show through it. */
    method GetSelectedCategories() returns (r: MutableList<Category>)
      ensures r == selectedCategories
    {
      r := selectedCategories;
    }

    /** A click on the button of `category`; `nowSelected` is the state its button is drawn in. */
    method OnCategoryClick(category: Category) returns (nowSelected: bool)
      modifies selectedCategories
      ensures selectedCategories.elems == Clicked(old(selectedCategories.elems), category)
      ensures nowSelected <==> IsSelected(selectedCategories.elems, category.id)
    {
      var wasSelected := IsSelected(selectedCategories.elems, category.id);
      if wasSelected {
        selectedCategories.elems := WithoutId(selectedCategories.elems, category.id);
      } else {
        selectedCategories.Add(category);
      }
      nowSelected := !wasSelected;
    }
  }
}
