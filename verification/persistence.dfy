/** The part of the saved filters that survives a reload: `saveFilters` keeps only the status and
    the sort option (src/lib/stores/persistence.ts), and on start-up the saved record is spread
    over the current filters (src/lib/stores/tasks.ts). */
module Persistence {
  import opened Wrappers
  import opened Types
  import opened FilterActions

  /** The JSON object written under the "filters" key. `JSON.stringify` drops a field whose value
      is `undefined`, so an absent field here is a key missing from the stored object. */
  datatype SavedFilters = SavedFilters(status: Option<StatusChoice>, sortBy: Option<SortOption>)

  function SaveFilters(f: FilterOptions): (p: SavedFilters)
    ensures p.status == f.status && p.sortBy == f.sortBy
  {
    SavedFilters(f.status, f.sortBy)
  }

  /** `{ ...current, ...persisted }` when something was stored; the keys the stored object has
      replace the current values. */
  function RestoreFilters(current: FilterOptions, saved: Option<SavedFilters>): (r: FilterOptions)
    ensures saved.None? ==> r == current
    ensures r.search == current.search && r.dateRange == current.dateRange
    ensures saved.Some? && saved.value.status.Some? ==> r.status == saved.value.status
    ensures saved.Some? && saved.value.sortBy.Some? ==> r.sortBy == saved.value.sortBy
    ensures saved.Some? && saved.value.status.None? ==> r.status == current.status
    ensures saved.Some? && saved.value.sortBy.None? ==> r.sortBy == current.sortBy
  {
    match saved
    case None => current
    case Some(p) =>
      current.(status := if p.status.Some? then p.status else current.status,
               sortBy := if p.sortBy.Some? then p.sortBy else current.sortBy)
  }

  /** A reload keeps the status and sort option and resets the search and the date range to
      their defaults; a status or sort option that was unset comes back as the default. */
  lemma ReloadKeepsStatusAndSort(f: FilterOptions)
    ensures var r := RestoreFilters(DefaultFilters, Some(SaveFilters(f)));
      && r.status == (if f.status.Some? then f.status else Some(AllStatuses))
      && r.sortBy == (if f.sortBy.Some? then f.sortBy else Some(CreatedDesc))
      && r.search == Some("")
      && r.dateRange == Some(DateRange(None, None))
  {
  }

  /** Saving what a reload produced stores the same status and sort option again, once both
      were set. */
  lemma ReloadIsStable(f: FilterOptions)
    requires f.status.Some? && f.sortBy.Some?
    ensures SaveFilters(RestoreFilters(DefaultFilters, Some(SaveFilters(f)))) == SaveFilters(f)
  {
  }
}
