/** The shared vocabulary of the app: dimensions, tasks, time filters and calendar days. */
module Types {
  import opened Wrappers

  /** The closed set of themes a task belongs to. */
  datatype Dimension = Cyber | Magic | Void

  /** The string literal that stands for a dimension at run time ('cyber' | 'magic' | 'void'). */
  function DimensionId(d: Dimension): string
  {
    match d
    case Cyber => "cyber"
    case Magic => "magic"
    case Void => "void"
  }

  /** Distinct dimensions have distinct string ids, so a string names at most one dimension. */
  lemma DimensionIdInjective(d: Dimension, e: Dimension)
    ensures DimensionId(d) == DimensionId(e) <==> d == e
  {
  }

  /** A `Date`, as milliseconds of local time since the epoch (time zones and DST are not modelled). */
  type Timestamp = int

  const MsPerDay: int := 86400000

  /** The calendar day that `t` falls on, counted from the epoch. */
  function Day(t: Timestamp): (d: int)
    ensures d * MsPerDay <= t < d * MsPerDay + MsPerDay
  {
    t / MsPerDay
  }

  /** `new Date(t).setHours(0, 0, 0, 0)`: local midnight at the start of the day of `t`. */
  function Midnight(t: Timestamp): (m: Timestamp)
    ensures m <= t < m + MsPerDay
    ensures m % MsPerDay == 0
  {
    Day(t) * MsPerDay
  }

  /** A to-do item. `dueDate` and `recurring` are optional properties. */
  datatype Task = Task(
    id: string,
    title: string,
    completed: bool,
    dimension: Dimension,
    dueDate: Option<Timestamp>,
    recurring: Option<bool>,
    createdAt: Timestamp)

  /** The four views offered by the time-filter menu. */
  datatype TimeFilter = Today | Tomorrow | Upcoming | Archived

  /** The string literal that stands for a time filter at run time. */
  function FilterId(f: TimeFilter): string
  {
    match f
    case Today => "today"
    case Tomorrow => "tomorrow"
    case Upcoming => "upcoming"
    case Archived => "archived"
  }
}
