/** The records of the task dashboard (src/lib/types.ts). */
module Types {
  import opened Wrappers

  datatype TaskStatus = Pending | InProgress | Completed

  datatype SortOption = CreatedDesc | CreatedAsc | TitleAsc | TitleDesc | ByStatus

  /** A point in time as `Date.getTime()` reports it: milliseconds since the epoch. */
  type Timestamp = int

  datatype Task = Task(
    id: string,
    title: string,
    description: Option<string>,
    status: TaskStatus,
    createdAt: Timestamp,
    updatedAt: Timestamp
  )

  /** `Partial<TaskFormData>`: each field is either absent (None) or given.
      A description given as `undefined` is `Some(None)` and clears the description. */
  datatype TaskPatch = TaskPatch(
    title: Option<string>,
    description: Option<Option<string>>,
    status: Option<TaskStatus>
  )

  /** The status filter: `"all"` or one particular status. */
  datatype StatusChoice = AllStatuses | OnlyStatus(status: TaskStatus)

  /** `{ start?: Date, end?: Date }` */
  datatype DateRange = DateRange(start: Option<Timestamp>, end: Option<Timestamp>)

  /** `FilterOptions`: every field optional. */
  datatype FilterOptions = FilterOptions(
    status: Option<StatusChoice>,
    search: Option<string>,
    sortBy: Option<SortOption>,
    dateRange: Option<DateRange>
  )
}
