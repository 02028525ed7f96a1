/** The staff and cashier menu view (frontend components/MenuViewer.js): the
    cashier's availability filter, the category selector, and the grouping of the
    shown items by category. */
module MenuViewer {
  import opened Wrappers
  import opened JsStrings

  datatype Category = Category(id: int, name: string)

  /** A menu item as the view reads it; `isAvailable` is the stored 0/1 flag. */
  datatype MenuItem = MenuItem(id: int, name: string, categoryId: int, isAvailable: int)

  /** The items of the cashier's view: `items.filter(item => item.is_available)`. */
  function Available(items: seq<MenuItem>): (r: seq<MenuItem>)
    ensures |r| <= |items|
    ensures forall k :: 0 <= k < |r| ==> r[k].isAvailable != 0 && r[k] in items
  {
    if items == [] then []
    else (if items[0].isAvailable != 0 then [items[0]] else []) + Available(items[1..])
  }

  /** The items a view mode loads: cashiers only see available ones. */
  function LoadedItems(viewMode: string, items: seq<MenuItem>): seq<MenuItem> {
    if viewMode == "cashier" then Available(items) else items
  }

  /** `menuItems.filter(item => item.category_id === id)`. */
  function InCategory(items: seq<MenuItem>, id: int): (r: seq<MenuItem>)
    ensures |r| <= |items|
    ensures forall k :: 0 <= k < |r| ==> r[k].categoryId == id && r[k] in items
  {
    if items == [] then []
    else (if items[0].categoryId == id then [items[0]] else []) + InCategory(items[1..], id)
  }

  /** `filteredItems`: everything under `all`, otherwise the items of the
      category `parseInt(selected)` names; `NaN` equals no id. */
  function FilteredItems(items: seq<MenuItem>, selected: string): seq<MenuItem> {
    if selected == "all" then items
    else
      var id := ParseInt(selected);
      if id.None? then [] else InCategory(items, id.value)
  }

  /** An item is kept exactly when its category id is the one selected, and
      the filter keeps the items' order. */
  lemma {:induction false} InCategoryMembers(items: seq<MenuItem>, id: int, it: MenuItem)
    ensures it in InCategory(items, id) <==> it in items && it.categoryId == id
  {
    if items != [] {
      InCategoryMembers(items[1..], id, it);
      assert items == [items[0]] + items[1..];
    }
  }

  lemma {:induction false} AvailableMembers(items: seq<MenuItem>, it: MenuItem)
    ensures it in Available(items) <==> it in items && it.isAvailable != 0
  {
    if items != [] {
      AvailableMembers(items[1..], it);
      assert items == [items[0]] + items[1..];
    }
  }

  /** Choosing a category from the selector (whose option values are the ids)
      shows exactly that category's items. */
  lemma SelectedCategory(items: seq<MenuItem>, id: nat, it: MenuItem)
    ensures it in FilteredItems(items, NatToDecimal(id)) <==> it in items && it.categoryId == id
  {
    var text := NatToDecimal(id);
    ParseIntOfDigits(text);
    DecimalRoundTrip(id);
    InCategoryMembers(items, id, it);
  }

  /** A cashier sees an item exactly when it is available. */
  lemma CashierSeesAvailable(items: seq<MenuItem>, it: MenuItem)
    ensures it in LoadedItems("cashier", items) <==> it in items && it.isAvailable != 0
    ensures forall mode :: mode != "cashier" ==> LoadedItems(mode, items) == items
  {
    AvailableMembers(items, it);
  }

  datatype Group = Group(category: Category, items: seq<MenuItem>)

  /** `categories.reduce(...)`: each category with at least one shown item gets
      its group under its id; a later category with the same id replaces an
      earlier one. */
  function GroupedItems(categories: seq<Category>, shown: seq<MenuItem>): map<int, Group>
  {
    if categories == [] then map[]
    else
      var acc := GroupedItems(categories[..|categories| - 1], shown);
      var c := categories[|categories| - 1];
      var its := InCategory(shown, c.id);
      if |its| > 0 then acc[c.id := Group(c, its)] else acc
  }

  /** Some category in the list has the id. */
  predicate HasCategory(categories: seq<Category>, id: int) {
    exists k :: 0 <= k < |categories| && categories[k].id == id
  }

  /** A category list with one more category at its end. */
  lemma HasCategoryLast(categories: seq<Category>, id: int)
    requires categories != []
    ensures HasCategory(categories, id)
            <==> HasCategory(categories[..|categories| - 1], id) || categories[|categories| - 1].id == id
  {
    var init := categories[..|categories| - 1];
    if HasCategory(init, id) {
      var k :| 0 <= k < |init| && init[k].id == id;
      assert categories[k] == init[k];
    }
    if categories[|categories| - 1].id == id {
      assert categories[|categories| - 1].id == id;
    }
  }

  /** What `GroupedItems` holds for each id. */
  predicate GroupedAt(categories: seq<Category>, shown: seq<MenuItem>, g: map<int, Group>, id: int) {
    && (id in g <==> HasCategory(categories, id) && InCategory(shown, id) != [])
    && (id in g ==> g[id].items == InCategory(shown, id) && g[id].category.id == id && g[id].category in categories)
  }

  /** An id has a group exactly when a category has that id and some shown item
      is in it; the group holds exactly that category's shown items, in order,
      under a category with that id. */
  lemma {:induction false} GroupedItemsFacts(categories: seq<Category>, shown: seq<MenuItem>)
    ensures forall id :: GroupedAt(categories, shown, GroupedItems(categories, shown), id)
  {
    if categories != [] {
      var init := categories[..|categories| - 1];
      GroupedItemsFacts(init, shown);
      var acc := GroupedItems(init, shown);
      var c := categories[|categories| - 1];
      var its := InCategory(shown, c.id);
      var g := GroupedItems(categories, shown);
      assert g == if |its| > 0 then acc[c.id := Group(c, its)] else acc;
      forall id
        ensures GroupedAt(categories, shown, g, id)
      {
        HasCategoryLast(categories, id);
        assert GroupedAt(init, shown, acc, id);
        if id == c.id && |its| > 0 {
          assert g[id] == Group(c, its);
        } else if id in acc {
          assert g[id] == acc[id];
          var k :| 0 <= k < |init| && init[k] == acc[id].category;
          assert categories[k] == init[k];
        }
      }
    }
  }

  /** An item whose category id matches no category never appears in a group. */
  lemma OrphanItemsHidden(categories: seq<Category>, shown: seq<MenuItem>, it: MenuItem)
    requires !HasCategory(categories, it.categoryId)
    ensures forall id :: id in GroupedItems(categories, shown) ==> it !in GroupedItems(categories, shown)[id].items
  {
    GroupedItemsFacts(categories, shown);
    var g := GroupedItems(categories, shown);
    forall id | id in g
      ensures it !in g[id].items
    {
      assert GroupedAt(categories, shown, g, id);
      if it in g[id].items {
        InCategoryMembers(shown, id, it);
      }
    }
  }

  /** "No menu items found" shows exactly when no shown item belongs to a listed
      category. */
  lemma EmptyMessage(categories: seq<Category>, shown: seq<MenuItem>)
    ensures GroupedItems(categories, shown).Keys == {}
            <==> forall it :: it in shown ==> !HasCategory(categories, it.categoryId)
  {
    GroupedItemsFacts(categories, shown);
    var g := GroupedItems(categories, shown);
    if forall it :: it in shown ==> !HasCategory(categories, it.categoryId) {
      forall id
        ensures id !in g.Keys
      {
        assert GroupedAt(categories, shown, g, id);
        if InCategory(shown, id) != [] {
          var it := InCategory(shown, id)[0];
          assert it in shown && it.categoryId == id;
        }
      }
    } else {
      var it :| it in shown && HasCategory(categories, it.categoryId);
      InCategoryMembers(shown, it.categoryId, it);
      assert GroupedAt(categories, shown, g, it.categoryId);
    }
  }

  /** The heading and text shown instead of the groups, when there are none. */
  function EmptyNotice(categories: seq<Category>, shown: seq<MenuItem>, selected: string): (r: Option<(string, string)>)
    ensures r.Some? <==> forall it :: it in shown ==> !HasCategory(categories, it.categoryId)
    ensures r.Some? ==> r.value.0 == "No menu items found"
  {
    EmptyMessage(categories, shown);
    if |GroupedItems(categories, shown).Keys| != 0 then None
    else if selected == "all" then Some(("No menu items found", "No menu items are currently available."))
    else Some(("No menu items found", "No items found in the selected category."))
  }

  /** Under "all", an item is rendered in some group exactly when the view mode
      loads it and a listed category has its id. */
  lemma {:induction false} RenderedItems(viewMode: string, categories: seq<Category>, items: seq<MenuItem>, it: MenuItem)
    ensures var g := GroupedItems(categories, FilteredItems(LoadedItems(viewMode, items), "all"));
            (exists id :: id in g && it in g[id].items)
            <==> it in LoadedItems(viewMode, items) && HasCategory(categories, it.categoryId)
  {
    var shown := LoadedItems(viewMode, items);
    var g := GroupedItems(categories, shown);
    GroupedItemsFacts(categories, shown);
    InCategoryMembers(shown, it.categoryId, it);
    if exists id :: id in g && it in g[id].items {
      var id :| id in g && it in g[id].items;
      assert GroupedAt(categories, shown, g, id);
      InCategoryMembers(shown, id, it);
    }
    if it in shown && HasCategory(categories, it.categoryId) {
      assert GroupedAt(categories, shown, g, it.categoryId);
    }
  }
}
