/** The menu: looking an item up by id, and the home page's filter by
    category and by a case-insensitive search on the item name. */
module Catalog {
  import opened Wrappers
  import opened Models

  /** The position of the first menu item with the given id. */
  function IndexOfItem(catalog: seq<FoodItem>, id: ItemId): (r: Option<nat>)
    ensures r.Some? ==> r.value < |catalog| && catalog[r.value].id == id
    ensures r.Some? ==> forall k :: 0 <= k < r.value ==> catalog[k].id != id
    ensures r.None? ==> forall k :: 0 <= k < |catalog| ==> catalog[k].id != id
  {
    if catalog == [] then None
    else if catalog[0].id == id then Some(0)
    else match IndexOfItem(catalog[1..], id)
      case None => None
      case Some(k) => Some(k + 1)
  }

  /** The menu item with the given id, if there is one. */
  function Find(catalog: seq<FoodItem>, id: ItemId): (r: Option<FoodItem>)
    ensures r.Some? <==> exists k :: 0 <= k < |catalog| && catalog[k].id == id
    ensures r.Some? ==> r.value in catalog && r.value.id == id
  {
    match IndexOfItem(catalog, id)
    case None => None
    case Some(k) => Some(catalog[k])
  }

  /** Ids are what lookups see: two menus with the same ids in the same
      places find every id at the same place. */
  lemma SameIdsSameIndex(a: seq<FoodItem>, b: seq<FoodItem>, id: ItemId)
    requires |a| == |b|
    requires forall k :: 0 <= k < |a| ==> a[k].id == b[k].id
    ensures IndexOfItem(a, id) == IndexOfItem(b, id)
  {
  }

  /** ASCII case folding, as the default database backend's LIKE does. */
  function LowerChar(c: char): char {
    if 'A' <= c <= 'Z' then (c as int + 32) as char else c
  }

  /** The text with every ASCII capital replaced by its small letter. */
  function Lower(s: string): (r: string)
    ensures |r| == |s|
    ensures forall k :: 0 <= k < |r| ==> !('A' <= r[k] <= 'Z')
    ensures forall k :: 0 <= k < |s| && !('A' <= s[k] <= 'Z') ==> r[k] == s[k]
    ensures forall k :: 0 <= k < |s| && 'A' <= s[k] <= 'Z' ==> r[k] as int == s[k] as int + 32
  {
    seq(|s|, k requires 0 <= k < |s| => LowerChar(s[k]))
  }

  /** Folding twice is folding once. */
  lemma LowerIdempotent(s: string)
    ensures Lower(Lower(s)) == Lower(s)
  {
    var once := Lower(s);
    assert forall k :: 0 <= k < |once| ==> Lower(once)[k] == once[k];
  }

  /** `needle` occurs in `hay` starting at position `i`. */
  ghost predicate OccursAt(hay: string, needle: string, i: int) {
    0 <= i && i + |needle| <= |hay| && hay[i..i + |needle|] == needle
  }

  lemma OccursShift(hay: string, needle: string, i: int)
    requires hay != [] && i >= 0
    ensures OccursAt(hay[1..], needle, i) <==> OccursAt(hay, needle, i + 1)
  {
    if 0 <= i && i + |needle| <= |hay| - 1 {
      assert hay[1..][i..i + |needle|] == hay[i + 1..i + 1 + |needle|];
    }
  }

  /** Substring search: true exactly when `needle` occurs somewhere in `hay`. */
  function Contains(hay: string, needle: string): (b: bool)
    ensures b <==> exists i :: OccursAt(hay, needle, i)
    decreases |hay|
  {
    if |needle| <= |hay| && hay[..|needle|] == needle then
      assert OccursAt(hay, needle, 0);
      true
    else if hay == [] then
      assert forall i :: !OccursAt(hay, needle, i);
      false
    else
      var rest := Contains(hay[1..], needle);
      assert rest ==> exists i :: OccursAt(hay, needle, i) by {
        if rest {
          var i :| OccursAt(hay[1..], needle, i);
          OccursShift(hay, needle, i);
        }
      }
      assert (exists i :: OccursAt(hay, needle, i)) ==> rest by {
        if exists i :: OccursAt(hay, needle, i) {
          var i :| OccursAt(hay, needle, i);
          assert i != 0;
          OccursShift(hay, needle, i - 1);
        }
      }
      rest
  }

  /** The name lookup of the home page: `search` occurs in `name`, ignoring case. */
  function IContains(name: string, search: string): (b: bool)
    ensures b <==> exists i :: OccursAt(Lower(name), Lower(search), i)
    ensures search == "" ==> b
    ensures |search| > |name| ==> !b
  {
    assert search == "" ==> OccursAt(Lower(name), Lower(search), 0);
    Contains(Lower(name), Lower(search))
  }

  /** The lookup ignores the case of the name. */
  lemma IContainsFoldedName(name: string, search: string)
    ensures IContains(Lower(name), search) == IContains(name, search)
  {
    LowerIdempotent(name);
  }

  /** The lookup ignores the case of the search text. */
  lemma IContainsFoldedSearch(name: string, search: string)
    ensures IContains(name, Lower(search)) == IContains(name, search)
  {
    LowerIdempotent(search);
  }

  /** A search in capitals finds a name written in mixed case. */
  lemma IContainsExample()
    ensures IContains("Paneer Tikka", "TIKK")
  {
    var name, search := Lower("Paneer Tikka"), Lower("TIKK");
    assert search == "tikk";
    assert name[7..11] == "tikk";
    assert OccursAt(name, search, 7);
  }

  /** Keeps the items stored under the requested category value. */
  function FilterCategory(items: seq<FoodItem>, category: string): (r: seq<FoodItem>)
    ensures forall x :: x in r <==> x in items && CategoryName(x.category) == category
    ensures ParseCategory(category).None? ==> r == []
  {
    if items == [] then []
    else (if CategoryName(items[0].category) == category then [items[0]] else [])
         + FilterCategory(items[1..], category)
  }

  /** Keeps the items whose name contains the search term, ignoring case. */
  function FilterSearch(items: seq<FoodItem>, search: string): (r: seq<FoodItem>)
    ensures forall x :: x in r <==> x in items && IContains(x.name, search)
  {
    if items == [] then []
    else (if IContains(items[0].name, search) then [items[0]] else [])
         + FilterSearch(items[1..], search)
  }

  /** Whether the home page shows `x` for the given query. An empty value
      stands for a parameter that is absent or empty: both switch their
      filter off. */
  predicate Shown(x: FoodItem, category: string, search: string) {
    (category == "" || CategoryName(x.category) == category) &&
    (search == "" || IContains(x.name, search))
  }

  /** The home page's list: the menu, narrowed by category when one is given
      and then by name when a search term is given. */
  function Home(items: seq<FoodItem>, category: string, search: string): (r: seq<FoodItem>)
    ensures forall x :: x in r <==> x in items && Shown(x, category, search)
    ensures category == "" && search == "" ==> r == items
    ensures ParseCategory(category).None? && category != "" ==> r == []
  {
    var byCategory := if category != "" then FilterCategory(items, category) else items;
    if search != "" then FilterSearch(byCategory, search) else byCategory
  }

  /** One pass over the menu keeping the items shown, in menu order. */
  function Select(items: seq<FoodItem>, category: string, search: string): (r: seq<FoodItem>)
    ensures forall x :: x in r <==> x in items && Shown(x, category, search)
    ensures |r| <= |items|
  {
    if items == [] then []
    else (if Shown(items[0], category, search) then [items[0]] else [])
         + Select(items[1..], category, search)
  }

  lemma {:induction false} SelectAll(items: seq<FoodItem>, category: string, search: string)
    requires category == "" && search == ""
    ensures Select(items, category, search) == items
  {
    if items != [] {
      SelectAll(items[1..], category, search);
      assert items == [items[0]] + items[1..];
    }
  }

  lemma {:induction false} SelectByCategory(items: seq<FoodItem>, category: string, search: string)
    requires category != "" && search == ""
    ensures Select(items, category, search) == FilterCategory(items, category)
  {
    if items != [] { SelectByCategory(items[1..], category, search); }
  }

  lemma {:induction false} SelectBySearch(items: seq<FoodItem>, category: string, search: string)
    requires category == "" && search != ""
    ensures Select(items, category, search) == FilterSearch(items, search)
  {
    if items != [] { SelectBySearch(items[1..], category, search); }
  }

  lemma {:induction false} SelectByBoth(items: seq<FoodItem>, category: string, search: string)
    requires category != "" && search != ""
    ensures Select(items, category, search) == FilterSearch(FilterCategory(items, category), search)
  {
    if items != [] {
      SelectByBoth(items[1..], category, search);
      var rest := FilterCategory(items[1..], category);
      var tail := Select(items[1..], category, search);
      assert tail == FilterSearch(rest, search);
      if CategoryName(items[0].category) == category {
        var f := [items[0]] + rest;
        assert FilterCategory(items, category) == f;
        assert f[0] == items[0] && f[1..] == rest;
        assert FilterSearch(f, search) == (if IContains(items[0].name, search) then [items[0]] else []) + FilterSearch(rest, search);
      } else {
        assert FilterCategory(items, category) == rest;
        assert Select(items, category, search) == tail;
      }
    }
  }

  /** The two filters combine by AND into one pass that keeps menu order:
      the home page lists exactly the shown items, in the menu's order. */
  lemma HomeIsOnePass(items: seq<FoodItem>, category: string, search: string)
    ensures Home(items, category, search) == Select(items, category, search)
  {
    if category == "" && search == "" {
      SelectAll(items, category, search);
    } else if category != "" && search == "" {
      SelectByCategory(items, category, search);
    } else if category == "" {
      SelectBySearch(items, category, search);
    } else {
      SelectByBoth(items, category, search);
    }
  }
}
