/**
 * The filter bar of the transaction list: its menus, the patch each control
 * hands to `onFilterChange`, whether any filter is active, and which filter
 * tags it shows.
 */
module FilterBar {
  import opened Outcomes
  import opened Filters

  /** The values offered by the type buttons, the category menu, the date menu and the sort menu. */
  const TypeValues: seq<string> := ["all", "deposit", "withdrawal", "transfer_in", "transfer_out"]
  const CategoryValues: seq<string> :=
    ["all", "shopping", "food", "entertainment", "transportation", "bills", "income", "other"]
  const DateRangeValues: seq<string> := ["all", "today", "week", "month", "quarter", "year", "custom"]
  const SortValues: seq<string> := ["date", "amount", "category"]

  /** What the user can do in the bar. */
  datatype Control =
    | PickType(value: string)
    | PickCategory(value: string)
    | PickDateRange(value: string)
    | PickSortBy(value: string)
    | ToggleOrder
    | ClearAll
    | RemoveTypeTag
    | RemoveCategoryTag
    | RemoveDateTag

  /** A control the bar offers: a menu value comes from its menu, and a tag's button exists only while its tag is shown. */
  predicate Offered(c: Control, f: Filters) {
    match c
    case PickType(v) => v in TypeValues
    case PickCategory(v) => v in CategoryValues
    case PickDateRange(v) => v in DateRangeValues
    case PickSortBy(v) => v in SortValues
    case ToggleOrder => true
    case ClearAll => HasActiveFilters(f)
    case RemoveTypeTag => TypeTagShown(f)
    case RemoveCategoryTag => CategoryTagShown(f)
    case RemoveDateTag => DateTagShown(f)
  }

  /** The sort-order button: 'desc' becomes 'asc', anything else becomes 'desc'. */
  function ToggledOrder(order: string): (r: string)
    ensures r == "asc" || r == "desc"
  {
    if order == "desc" then "asc" else "desc"
  }

  /** Two presses return to 'asc' or 'desc'; from any other value they end at 'asc'. */
  lemma ToggleTwice(order: string)
    ensures ToggledOrder(order) != order
    ensures order == "asc" || order == "desc" <==> ToggledOrder(ToggledOrder(order)) == order
  {
  }

  /** The patch a control hands to `onFilterChange`. */
  function Emit(c: Control, f: Filters): Patch {
    match c
    case PickType(v) => NoChange.(kind := Some(v))
    case PickCategory(v) => NoChange.(category := Some(v))
    case PickDateRange(v) => NoChange.(dateRange := Some(v))
    case PickSortBy(v) => NoChange.(sortBy := Some(v))
    case ToggleOrder => NoChange.(sortOrder := Some(ToggledOrder(f.sortOrder)))
    case ClearAll => Patch(Some("all"), Some("all"), Some("all"), Some("date"), Some("desc"))
    case RemoveTypeTag => NoChange.(kind := Some("all"))
    case RemoveCategoryTag => NoChange.(category := Some("all"))
    case RemoveDateTag => NoChange.(dateRange := Some("all"))
  }

  /** Some filter differs from its default. */
  predicate HasActiveFilters(f: Filters) {
    || f.kind != "all"
    || f.dateRange != "all"
    || f.category != "all"
    || f.sortBy != "date"
    || f.sortOrder != "desc"
  }

  /** No filter is active exactly at the default record. */
  lemma InactiveExactlyAtDefaults(f: Filters)
    ensures !HasActiveFilters(f) <==> f == Defaults
  {
  }

  predicate TypeTagShown(f: Filters) { f.kind != "all" }
  predicate CategoryTagShown(f: Filters) { f.category != "all" }
  predicate DateTagShown(f: Filters) { f.dateRange != "all" }

  /** A tag is shown only inside the active-filters row, so only while some filter is active. */
  lemma TagsOnlyWhenActive(f: Filters)
    ensures TypeTagShown(f) || CategoryTagShown(f) || DateTagShown(f) ==> HasActiveFilters(f)
  {
  }

  /** "Clear All" restores every default, after which no filter is active. */
  lemma ClearAllResets(f: Filters)
    ensures Merge(f, Emit(ClearAll, f)) == Defaults
    ensures !HasActiveFilters(Merge(f, Emit(ClearAll, f)))
  {
  }

  /** Removing a tag resets its own key to 'all', hides that tag, and keeps every other key. */
  lemma RemoveTagResetsOwnKey(f: Filters)
    ensures Merge(f, Emit(RemoveTypeTag, f)) == f.(kind := "all") && !TypeTagShown(f.(kind := "all"))
    ensures Merge(f, Emit(RemoveCategoryTag, f)) == f.(category := "all") && !CategoryTagShown(f.(category := "all"))
    ensures Merge(f, Emit(RemoveDateTag, f)) == f.(dateRange := "all") && !DateTagShown(f.(dateRange := "all"))
  {
  }

  /** The sort keys are always one of the sort menu's values and one of the two orders. */
  predicate SortKeysOk(f: Filters) {
    f.sortBy in SortValues && (f.sortOrder == "asc" || f.sortOrder == "desc")
  }

  /** Every control the bar offers keeps the sort keys within their menus. */
  lemma EmitKeepsSortKeys(c: Control, f: Filters)
    requires SortKeysOk(f) && Offered(c, f)
    ensures SortKeysOk(Merge(f, Emit(c, f)))
  {
  }
}
