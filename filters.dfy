/**
 * The filter record the transaction list keeps and the filter bar edits, the
 * partial records ("patches") the bar hands back, and the list's
 * `handleFilterChange`, which spreads a patch over the current record.
 */
module Filters {
  import opened Outcomes

  /** `{ type, dateRange, category, sortBy, sortOrder }`; `type` is spelled `kind`. */
  datatype Filters = Filters(kind: string, dateRange: string, category: string, sortBy: string, sortOrder: string)

  /** A partial filter record: a key that is `None` is absent from the object literal. */
  datatype Patch = Patch(kind: Option<string>, dateRange: Option<string>, category: Option<string>,
                         sortBy: Option<string>, sortOrder: Option<string>)

  /** The list's initial filters, which are also what "Clear All" sets. */
  const Defaults := Filters("all", "all", "all", "date", "desc")

  const NoChange := Patch(None, None, None, None, None)

  /** `{ ...filters, ...patch }`: a key of the patch overrides, every other key is kept. */
  function Merge(f: Filters, p: Patch): (r: Filters) {
    Filters(GetOr(p.kind, f.kind), GetOr(p.dateRange, f.dateRange), GetOr(p.category, f.category),
            GetOr(p.sortBy, f.sortBy), GetOr(p.sortOrder, f.sortOrder))
  }

  /** The keys a patch supplies take its values; the keys it omits keep theirs. */
  lemma MergeOverridesOnlySupplied(f: Filters, p: Patch)
    ensures var r := Merge(f, p);
      && (p.kind.Some? ==> r.kind == p.kind.value) && (p.kind.None? ==> r.kind == f.kind)
      && (p.dateRange.Some? ==> r.dateRange == p.dateRange.value) && (p.dateRange.None? ==> r.dateRange == f.dateRange)
      && (p.category.Some? ==> r.category == p.category.value) && (p.category.None? ==> r.category == f.category)
      && (p.sortBy.Some? ==> r.sortBy == p.sortBy.value) && (p.sortBy.None? ==> r.sortBy == f.sortBy)
      && (p.sortOrder.Some? ==> r.sortOrder == p.sortOrder.value) && (p.sortOrder.None? ==> r.sortOrder == f.sortOrder)
  {
  }

  /** The empty patch changes nothing, and applying the same patch twice is applying it once. */
  lemma MergeNeutralAndIdempotent(f: Filters, p: Patch)
    ensures Merge(f, NoChange) == f
    ensures Merge(Merge(f, p), p) == Merge(f, p)
  {
  }

  /** `{ ...p, ...q }`: the later patch's keys win. */
  function Then(p: Patch, q: Patch): Patch {
    Patch(if q.kind.Some? then q.kind else p.kind,
          if q.dateRange.Some? then q.dateRange else p.dateRange,
          if q.category.Some? then q.category else p.category,
          if q.sortBy.Some? then q.sortBy else p.sortBy,
          if q.sortOrder.Some? then q.sortOrder else p.sortOrder)
  }

  /** Two successive filter changes amount to one change by the combined patch. */
  lemma MergeThen(f: Filters, p: Patch, q: Patch)
    ensures Merge(Merge(f, p), q) == Merge(f, Then(p, q))
  {
  }
}
