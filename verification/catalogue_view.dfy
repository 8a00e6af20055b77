/** What the catalogue page shows: the items that pass the search box and
    the region selector, in the order the sort selector asks for, and the
    options of the region selector (script.js). */
module CatalogueView {
  import opened Text
  import opened Seqs
  import opened Sorting
  import opened CatalogueItems

  /** `filterItems`'s test: the lower-cased search term occurs in the
      lower-cased name, lore or description, and the region selector is on
      its "all regions" value or names the item's region exactly. */
  predicate Matches(item: Item, search: string, region: string) {
    var term := Lower(search);
    (Contains(Lower(item.name), term) || Contains(Lower(item.lore), term) || Contains(Lower(item.descriptionLore), term))
    && (region == AllRegions || item.region == region)
  }

  /** The value of the region selector's first option, "all regions". */
  const AllRegions: string := ""

  /** `filterItems`: the matching items, in catalogue order. */
  function FilterItems(items: seq<Item>, search: string, region: string): (shown: seq<Item>)
    ensures IsSubsequence(shown, items)
    ensures forall x :: multiset(shown)[x] == if Matches(x, search, region) then multiset(items)[x] else 0
  {
    FilterSpec(items, x => Matches(x, search, region));
    Filter(items, x => Matches(x, search, region))
  }

  /** An item is shown exactly when it is in the catalogue and matches. */
  lemma {:induction false} FilterItemsMembers(items: seq<Item>, search: string, region: string, x: Item)
    ensures x in FilterItems(items, search, region) <==> x in items && Matches(x, search, region)
  {
    FilterMembers(items, x => Matches(x, search, region), x);
  }

  /** With an empty search box and all regions selected, everything is shown. */
  lemma {:induction false} FilterItemsNoCriteria(items: seq<Item>)
    ensures FilterItems(items, "", AllRegions) == items
  {
    forall i | 0 <= i < |items|
      ensures Matches(items[i], "", AllRegions)
    {
      ContainsEmpty(Lower(items[i].name));
    }
    FilterAll(items, x => Matches(x, "", AllRegions));
  }

  /** The values of the sort selector. */
  datatype SortOrder = NameAsc | NameDesc | RegionAsc | RegionDesc | Unsorted

  /** The selector's value as `sortItems` reads it; any other value falls
      to the `default` case. */
  function SortOrderOf(value: string): SortOrder {
    if value == "nameAsc" then NameAsc
    else if value == "nameDesc" then NameDesc
    else if value == "regionAsc" then RegionAsc
    else if value == "regionDesc" then RegionDesc
    else Unsorted
  }

  /** The comparator `sortItems` hands to `Array.prototype.sort`; both
      region orders break ties by ascending name (a comparison of 0 is
      falsy, so `||` moves on to the names). */
  function ItemCmp(order: SortOrder, a: Item, b: Item): int {
    match order
    case NameAsc => Compare(a.name, b.name)
    case NameDesc => Compare(b.name, a.name)
    case RegionAsc => if Compare(a.region, b.region) != 0 then Compare(a.region, b.region) else Compare(a.name, b.name)
    case RegionDesc => if Compare(b.region, a.region) != 0 then Compare(b.region, a.region) else Compare(a.name, b.name)
    case Unsorted => 0
  }

  function ItemOrder(order: SortOrder): (Item, Item) -> int {
    (a, b) => ItemCmp(order, a, b)
  }

  /** `sortItems(items, order)`: a sorted copy. */
  function SortItems(items: seq<Item>, order: SortOrder): (sorted: seq<Item>)
    ensures |sorted| == |items|
    ensures multiset(sorted) == multiset(items)
  {
    InsertionSort(items, ItemOrder(order))
  }

  lemma {:induction false} ItemCmpAntisymmetric(order: SortOrder, a: Item, b: Item)
    ensures ItemCmp(order, b, a) == -ItemCmp(order, a, b)
  {
    CompareAntisymmetric(a.name, b.name);
    CompareAntisymmetric(a.region, b.region);
  }

  lemma {:induction false} ItemCmpTransitive(order: SortOrder, a: Item, b: Item, c: Item)
    requires ItemCmp(order, a, b) <= 0 && ItemCmp(order, b, c) <= 0
    ensures ItemCmp(order, a, c) <= 0
  {
    match order
    case NameAsc => CompareTransitive(a.name, b.name, c.name);
    case NameDesc => CompareTransitive(c.name, b.name, a.name);
    case RegionAsc =>
      if a.region == b.region || b.region == c.region {
        if a.region == b.region && b.region == c.region {
          CompareTransitive(a.name, b.name, c.name);
        }
      } else {
        CompareStrictTransitive(a.region, b.region, c.region);
      }
    case RegionDesc =>
      if a.region == b.region || b.region == c.region {
        if a.region == b.region && b.region == c.region {
          CompareTransitive(a.name, b.name, c.name);
        }
      } else {
        CompareStrictTransitive(c.region, b.region, a.region);
      }
    case Unsorted =>
  }

  /** Each sort order is a total preorder on items. */
  lemma {:induction false} ItemOrderLaws(order: SortOrder)
    ensures Antisymmetric(ItemOrder(order)) && Transitive(ItemOrder(order))
  {
    var cmp := ItemOrder(order);
    forall a, b
      ensures AntisymmetricAt(cmp, a, b)
    {
      ItemCmpAntisymmetric(order, a, b);
    }
    forall a, b, c
      ensures TransitiveAt(cmp, a, b, c)
    {
      if cmp(a, b) <= 0 && cmp(b, c) <= 0 {
        ItemCmpTransitive(order, a, b, c);
      }
    }
  }

  /** What each order means for any two positions of the sorted list. */
  lemma {:induction false} SortItemsOrdered(items: seq<Item>, order: SortOrder, i: int, j: int)
    requires 0 <= i < j < |items|
    ensures var r := SortItems(items, order);
      && (order == NameAsc ==> Compare(r[i].name, r[j].name) <= 0)
      && (order == NameDesc ==> Compare(r[j].name, r[i].name) <= 0)
      && (order == RegionAsc ==>
            (Compare(r[i].region, r[j].region) < 0 || (r[i].region == r[j].region && Compare(r[i].name, r[j].name) <= 0)))
      && (order == RegionDesc ==>
            (Compare(r[j].region, r[i].region) < 0 || (r[i].region == r[j].region && Compare(r[i].name, r[j].name) <= 0)))
  {
    ItemOrderLaws(order);
    InsertionSortSorted(items, ItemOrder(order));
    var r := SortItems(items, order);
    assert ItemOrder(order)(r[i], r[j]) <= 0;
  }

  /** Items that tie under the order keep their catalogue order. */
  lemma {:induction false} SortItemsStable(items: seq<Item>, order: SortOrder, v: Item)
    ensures Filter(SortItems(items, order), Ties(ItemOrder(order), v)) == Filter(items, Ties(ItemOrder(order), v))
  {
    ItemOrderLaws(order);
    InsertionSortStable(items, ItemOrder(order), v);
  }

  /** An unknown order leaves the list as it is. */
  lemma {:induction false} SortItemsUnsorted(items: seq<Item>)
    ensures SortItems(items, Unsorted) == items
  {
    InsertionSortAllTies(items, ItemOrder(Unsorted));
  }

  /** The distinct non-empty regions, in order of first appearance, as the
      `Set` in `updateRegionFilter` collects them. */
  function RegionsSeen(items: seq<Item>): (rs: seq<string>)
    ensures Distinct(rs)
    ensures forall x :: x in rs <==> x != "" && exists i :: 0 <= i < |items| && items[i].region == x
    decreases |items|
  {
    if |items| == 0 then []
    else
      var init := items[..|items| - 1];
      var prev := RegionsSeen(init);
      var r := items[|items| - 1].region;
      assert forall i :: 0 <= i < |init| ==> init[i] == items[i];
      if r != "" && r !in prev then
        assert forall i :: 0 <= i < |prev| ==> (prev + [r])[i] == prev[i];
        prev + [r]
      else prev
  }

  /** The options after the "all regions" one: `Array.from(regions).sort()`. */
  function RegionOptions(items: seq<Item>): seq<string> {
    InsertionSort(RegionsSeen(items), Compare)
  }

  /** The region options are strictly increasing and are exactly the
      non-empty regions of the items. */
  lemma {:induction false} RegionOptionsSpec(items: seq<Item>)
    ensures var opts := RegionOptions(items);
      && (forall i, j :: 0 <= i < j < |opts| ==> Compare(opts[i], opts[j]) < 0)
      && (forall x :: x in opts <==> x != "" && exists i :: 0 <= i < |items| && items[i].region == x)
  {
    var seen := RegionsSeen(items);
    var opts := RegionOptions(items);
    forall a, b
      ensures AntisymmetricAt(Compare, a, b)
    {
      CompareAntisymmetric(a, b);
    }
    forall a, b, c
      ensures TransitiveAt(Compare, a, b, c)
    {
      if Compare(a, b) <= 0 && Compare(b, c) <= 0 {
        CompareTransitive(a, b, c);
      }
    }
    InsertionSortSorted(seen, Compare);
    DistinctPermutation(opts, seen);
    forall x
      ensures x in opts <==> x in seen
    {
      assert x in opts <==> x in multiset(opts);
      assert x in seen <==> x in multiset(seen);
    }
  }

  /** `categoryFilter.value` after the options are rebuilt: the previous
      choice when it is still offered, else the first option. */
  function RegionSelection(current: string, items: seq<Item>): (chosen: string)
    ensures chosen == AllRegions || chosen in RegionOptions(items)
    ensures chosen == current <==> current == AllRegions || current in RegionOptions(items)
  {
    if current in RegionOptions(items) then current else AllRegions
  }
}
