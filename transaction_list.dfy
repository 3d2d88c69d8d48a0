/**
 * The transaction list component: the records it shows after the search,
 * type and category filters, the order its comparator gives them, and the
 * selection and filter state it keeps.
 */
module TransactionList {
  import opened Outcomes
  import Text
  import opened Filters
  import FilterBar

  /** A record as the list receives it. Amounts are in cents; `description` may be absent. */
  datatype Item = Item(id: string, kind: string, amount: int, description: Option<string>, category: string,
                       createdAt: int)

  // ---------------------------------------------------------------- filtering

  /**
   * The search test: an empty query keeps everything; otherwise the
   * lower-cased query must occur in the lower-cased description, in the
   * amount's decimal text, or in the lower-cased category.
   */
  predicate MatchesSearch(t: Item, query: string) {
    query == "" ||
      var q := Text.ToLower(query);
      || (t.description.Some? && Text.Contains(Text.ToLower(t.description.value), q))
      || Text.Contains(Text.CentsToString(t.amount), q)
      || Text.Contains(Text.ToLower(t.category), q)
  }

  /** The filter callback: the search, then the type filter, then the category filter; 'all' imposes nothing. */
  predicate Keep(t: Item, query: string, f: Filters) {
    && MatchesSearch(t, query)
    && (f.kind == "all" || t.kind == f.kind)
    && (f.category == "all" || t.category == f.category)
  }

  /** `r` is `s` with some elements left out and the rest in their order. */
  predicate IsSubsequence(r: seq<Item>, s: seq<Item>)
    decreases |s|
  {
    if r == [] then true
    else if s == [] then false
    else if r[0] == s[0] then IsSubsequence(r[1..], s[1..])
    else IsSubsequence(r, s[1..])
  }

  /** Skipping one more element of `s` keeps a subsequence a subsequence. */
  lemma {:induction false} SubsequenceOfLonger(r: seq<Item>, x: Item, s: seq<Item>)
    requires IsSubsequence(r, s)
    ensures IsSubsequence(r, [x] + s)
    decreases |s|, 1
  {
    assert ([x] + s)[1..] == s;
    if r != [] && r[0] == x {
      SubsequenceDropsHead(r, s);
    }
  }

  /** A subsequence without its first element is still a subsequence. */
  lemma {:induction false} SubsequenceDropsHead(r: seq<Item>, s: seq<Item>)
    requires r != [] && IsSubsequence(r, s)
    ensures IsSubsequence(r[1..], s)
    decreases |s|, 0
  {
    assert [s[0]] + s[1..] == s;
    if r[0] != s[0] {
      SubsequenceDropsHead(r, s[1..]);
    }
    SubsequenceOfLonger(r[1..], s[0], s[1..]);
  }

  /**
   * `transactions.filter(...)`: an order-preserving subsequence of the
   * input that holds exactly the records the callback keeps, so it is never
   * longer than the input.
   */
  function Filtered(s: seq<Item>, query: string, f: Filters): (r: seq<Item>)
    ensures |r| <= |s|
    ensures IsSubsequence(r, s)
    ensures forall t :: t in r <==> t in s && Keep(t, query, f)
  {
    if s == [] then []
    else
      var rest := Filtered(s[1..], query, f);
      SubsequenceOfLonger(rest, s[0], s[1..]);
      assert [s[0]] + s[1..] == s;
      if Keep(s[0], query, f) then
        assert ([s[0]] + rest)[1..] == rest;
        [s[0]] + rest
      else rest
  }

  /** The filter keeps every record that passes with all its copies, and drops every other. */
  lemma {:induction false} FilteredCounts(s: seq<Item>, query: string, f: Filters)
    ensures forall t :: multiset(Filtered(s, query, f))[t] == if Keep(t, query, f) then multiset(s)[t] else 0
  {
    if s != [] {
      assert s == [s[0]] + s[1..];
      assert multiset(s) == multiset{s[0]} + multiset(s[1..]);
      FilteredCounts(s[1..], query, f);
      var rest := Filtered(s[1..], query, f);
      if Keep(s[0], query, f) {
        assert multiset([s[0]] + rest) == multiset{s[0]} + multiset(rest);
      }
    }
  }

  /** With no query and both filters at 'all', nothing is filtered out. */
  lemma {:induction false} NoFilterKeepsAll(s: seq<Item>, f: Filters)
    requires f.kind == "all" && f.category == "all"
    ensures Filtered(s, "", f) == s
  {
    if s != [] {
      NoFilterKeepsAll(s[1..], f);
      assert [s[0]] + s[1..] == s;
    }
  }

  // ---------------------------------------------------------------- sorting

  /** Lexicographic comparison by character code, returning -1, 0 or 1. */
  function LexCompare(a: string, b: string): (r: int)
    ensures -1 <= r <= 1
    ensures r == 0 <==> a == b
  {
    if a == [] && b == [] then 0
    else if a == [] then -1
    else if b == [] then 1
    else if a[0] < b[0] then -1
    else if a[0] > b[0] then 1
    else
      var r := LexCompare(a[1..], b[1..]);
      assert a == [a[0]] + a[1..] && b == [b[0]] + b[1..];
      r
  }

  /** Swapping the operands negates the comparison. */
  lemma {:induction false} LexCompareFlip(a: string, b: string)
    ensures LexCompare(b, a) == -LexCompare(a, b)
  {
    if a != [] && b != [] && a[0] == b[0] {
      LexCompareFlip(a[1..], b[1..]);
    }
  }

  /**
   * The sort comparator: -1 under 'desc' and 1 otherwise, times the second
   * operand's date minus the first's, the second's amount minus the first's,
   * or the first's category compared with the second's; 0 for any other
   * sort key.
   */
  function Compare(x: Item, y: Item, f: Filters): int {
    var order := if f.sortOrder == "desc" then -1 else 1;
    if f.sortBy == "date" then order * (y.createdAt - x.createdAt)
    else if f.sortBy == "amount" then order * (y.amount - x.amount)
    else if f.sortBy == "category" then order * LexCompare(x.category, y.category)
    else 0
  }

  /** Swapping the operands negates the comparator. */
  lemma CompareFlip(x: Item, y: Item, f: Filters)
    ensures Compare(y, x, f) == -Compare(x, y, f)
  {
    LexCompareFlip(x.category, y.category);
  }

  /** Every neighbouring pair is in the comparator's order. */
  predicate Sorted(s: seq<Item>, f: Filters) {
    forall i :: 0 < i < |s| ==> Compare(s[i - 1], s[i], f) <= 0
  }

  /** Inserting `x` into a sorted sequence before the first element it does not follow. */
  function Insert(x: Item, s: seq<Item>, f: Filters): (r: seq<Item>)
    ensures multiset(r) == multiset(s) + multiset{x}
    ensures |r| == |s| + 1 && (r[0] == x || (s != [] && r[0] == s[0]))
    ensures Sorted(s, f) ==> Sorted(r, f)
  {
    if s == [] then [x]
    else if Compare(x, s[0], f) <= 0 then [x] + s
    else
      var rest := Insert(x, s[1..], f);
      CompareFlip(x, s[0], f);
      assert [s[0]] + s[1..] == s;
      [s[0]] + rest
  }

  /**
   * The sort of a copy of the filtered records (an insertion sort that
   * keeps equal records in their order): a permutation of them in the
   * comparator's order.
   */
  function SortItems(s: seq<Item>, f: Filters): (r: seq<Item>)
    ensures multiset(r) == multiset(s) && |r| == |s|
    ensures Sorted(r, f)
  {
    if s == [] then []
    else
      assert [s[0]] + s[1..] == s;
      Insert(s[0], SortItems(s[1..], f), f)
  }

  /**
   * What the labels promise and what the comparator does disagree: under
   * 'desc' dates and amounts come out ascending (oldest, smallest first) and
   * categories in reverse alphabetical order; under 'asc' the reverse.
   */
  lemma SortedOrderUnderLabels(s: seq<Item>, f: Filters, i: nat)
    requires 0 < i < |s| && Sorted(s, f)
    ensures f.sortBy == "date" && f.sortOrder == "desc" ==> s[i - 1].createdAt <= s[i].createdAt
    ensures f.sortBy == "date" && f.sortOrder != "desc" ==> s[i - 1].createdAt >= s[i].createdAt
    ensures f.sortBy == "amount" && f.sortOrder == "desc" ==> s[i - 1].amount <= s[i].amount
    ensures f.sortBy == "amount" && f.sortOrder != "desc" ==> s[i - 1].amount >= s[i].amount
    ensures f.sortBy == "category" && f.sortOrder == "desc" ==> LexCompare(s[i - 1].category, s[i].category) >= 0
    ensures f.sortBy == "category" && f.sortOrder != "desc" ==> LexCompare(s[i - 1].category, s[i].category) <= 0
  {
    assert Compare(s[i - 1], s[i], f) <= 0;
  }

  // ---------------------------------------------------------------- selection

  /** `prev.filter(x => x !== id)`. */
  function Without(sel: seq<string>, id: string): (r: seq<string>)
    ensures |r| <= |sel|
    ensures forall x :: x in r <==> x in sel && x != id
    ensures id !in sel ==> r == sel
  {
    if sel == [] then []
    else
      assert [sel[0]] + sel[1..] == sel;
      (if sel[0] == id then [] else [sel[0]]) + Without(sel[1..], id)
  }

  /** Every occurrence of `id` goes, and every other id stays as often as it was selected. */
  lemma {:induction false} WithoutCounts(sel: seq<string>, id: string)
    ensures multiset(Without(sel, id)) == multiset(sel)[id := 0]
  {
    if sel != [] {
      WithoutCounts(sel[1..], id);
      assert [sel[0]] + sel[1..] == sel;
    }
  }

  /** Removing an id just appended to a selection without it gives that selection back. */
  lemma {:induction false} WithoutAppended(sel: seq<string>, id: string)
    requires id !in sel
    ensures Without(sel + [id], id) == sel
  {
    if sel != [] {
      WithoutAppended(sel[1..], id);
      assert (sel + [id])[1..] == sel[1..] + [id];
      assert [sel[0]] + sel[1..] == sel;
    }
  }

  /** `handleSelectTransaction`: a selected id is removed, any other id appended. */
  function Toggled(sel: seq<string>, id: string): seq<string> {
    if id in sel then Without(sel, id) else sel + [id]
  }

  /**
   * Toggling flips the id's membership and no other; toggling twice restores
   * the selected set, and restores the selection itself when the id was not
   * selected.
   */
  lemma ToggleTwice(sel: seq<string>, id: string)
    ensures id in Toggled(sel, id) <==> id !in sel
    ensures forall x :: x != id ==> (x in Toggled(sel, id) <==> x in sel)
    ensures forall x :: x in Toggled(Toggled(sel, id), id) <==> x in sel
    ensures id !in sel ==> Toggled(Toggled(sel, id), id) == sel
  {
    if id !in sel {
      assert id in sel + [id];
      assert Without(sel + [id], id) == sel by {
        WithoutAppended(sel, id);
      }
    } else {
      assert id !in Without(sel, id);
    }
  }

  function Ids(items: seq<Item>): (r: seq<string>)
    ensures |r| == |items| && forall i :: 0 <= i < |items| ==> r[i] == items[i].id
  {
    if items == [] then [] else [items[0].id] + Ids(items[1..])
  }

  /** `handleSelectAll`: clear when as many ids are selected as there are records, else select every record. */
  function SelectAll(sel: seq<string>, items: seq<Item>): seq<string> {
    if |sel| == |items| then [] else Ids(items)
  }

  /**
   * Selecting all from a partial selection selects every record's id, and
   * pressing again clears it; the test compares counts only, so a selection
   * of as many ids as there are records is cleared whatever the ids are.
   */
  lemma SelectAllTwice(sel: seq<string>, items: seq<Item>)
    ensures |sel| != |items| ==> forall t :: t in items ==> t.id in SelectAll(sel, items)
    ensures |sel| != |items| ==> SelectAll(SelectAll(sel, items), items) == []
    ensures |sel| == |items| ==> SelectAll(sel, items) == []
  {
    if |sel| != |items| {
      forall t | t in items ensures t.id in SelectAll(sel, items) {
        var i :| 0 <= i < |items| && items[i] == t;
        assert SelectAll(sel, items)[i] == t.id;
      }
    }
  }

  // ---------------------------------------------------------------- the empty state

  /** `Object.values(filters).some(f => f !== 'all')`. */
  predicate SomeNotAll(f: Filters) {
    f.kind != "all" || f.dateRange != "all" || f.category != "all" || f.sortBy != "all" || f.sortOrder != "all"
  }

  /** The empty state's "Clear filters" resets type, date range and category only. */
  const ClearPatch := Patch(Some("all"), Some("all"), Some("all"), None, None)

  /**
   * Whenever the sort keys come from their menus, the empty state offers to
   * clear filters, even right after clearing them, because the sort keys are
   * never 'all'.
   */
  lemma EmptyStateAlwaysOffersClear(f: Filters)
    requires FilterBar.SortKeysOk(f)
    ensures SomeNotAll(f)
    ensures SomeNotAll(Merge(f, ClearPatch)) && FilterBar.SortKeysOk(Merge(f, ClearPatch))
  {
  }

  // ---------------------------------------------------------------- the component's state

  class ListView {
    const transactions: seq<Item>
    var searchQuery: string
    var filters: Filters
    var selected: seq<string>

    ghost predicate Valid()
      reads this
    {
      FilterBar.SortKeysOk(filters)
    }

    constructor (transactions: seq<Item>)
      ensures Valid()
      ensures this.transactions == transactions && searchQuery == "" && filters == Defaults && selected == []
    {
      this.transactions := transactions;
      searchQuery := "";
      filters := Defaults;
      selected := [];
    }

    /** The records shown: filtered, then sorted on a copy. */
    function Shown(): (r: seq<Item>)
      reads this
      ensures multiset(r) == multiset(Filtered(transactions, searchQuery, filters))
      ensures Sorted(r, filters) && |r| <= |transactions|
    {
      SortItems(Filtered(transactions, searchQuery, filters), filters)
    }

    /** Whether the empty state offers "Clear filters". */
    predicate OffersClear()
      reads this
    {
      searchQuery != "" || SomeNotAll(filters)
    }

    /** `handleFilterChange`. */
    method HandleFilterChange(p: Patch)
      modifies this
      ensures filters == Merge(old(filters), p)
      ensures searchQuery == old(searchQuery) && selected == old(selected)
    {
      filters := Merge(filters, p);
    }

    /** A control of the filter bar, which calls `handleFilterChange` with its patch. */
    method UseFilterBar(c: FilterBar.Control)
      requires Valid() && FilterBar.Offered(c, filters)
      modifies this
      ensures Valid()
      ensures filters == Merge(old(filters), FilterBar.Emit(c, old(filters)))
      ensures searchQuery == old(searchQuery) && selected == old(selected)
    {
      FilterBar.EmitKeepsSortKeys(c, filters);
      HandleFilterChange(FilterBar.Emit(c, filters));
    }

    /** `handleSearch`. */
    method HandleSearch(value: string)
      modifies this
      ensures searchQuery == value && filters == old(filters) && selected == old(selected)
    {
      searchQuery := value;
    }

    /** `handleSelectAll`. */
    method HandleSelectAll()
      modifies this
      ensures selected == SelectAll(old(selected), transactions)
      ensures searchQuery == old(searchQuery) && filters == old(filters)
    {
      if |selected| == |transactions| {
        selected := [];
      } else {
        selected := Ids(transactions);
      }
    }

    /** `handleSelectTransaction`. */
    method HandleSelectTransaction(id: string)
      modifies this
      ensures selected == Toggled(old(selected), id)
      ensures searchQuery == old(searchQuery) && filters == old(filters)
    {
      if id in selected {
        selected := Without(selected, id);
      } else {
        selected := selected + [id];
      }
    }

    /** The empty state's action: the query is emptied and type, date range and category reset. */
    method ClearFromEmptyState()
      requires Valid() && OffersClear()
      modifies this
      ensures Valid() && OffersClear()
      ensures searchQuery == "" && filters == Merge(old(filters), ClearPatch) && selected == old(selected)
    {
      searchQuery := "";
      EmptyStateAlwaysOffersClear(filters);
      HandleFilterChange(ClearPatch);
    }
  }
}
