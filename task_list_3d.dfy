/** The visibility filter of the task list the page renders (the 3D list). */
module TaskList3D {
  import opened Wrappers
  import opened Seqs
  import opened Types

  /** The `tasks.filter` callback: is `t` shown for dimension `current` under `filter` at clock time `now`? */
  predicate Visible(t: Task, current: Dimension, filter: TimeFilter, now: Timestamp)
    ensures Visible(t, current, filter, now) ==> t.dimension == current
    ensures Visible(t, current, filter, now) && filter != Archived && t.dueDate.Some? ==> Day(t.dueDate.value) >= Day(now)
  {
    if t.dimension != current then false
    else if t.dueDate.None? then filter == Today
    else
      var today := Midnight(now);
      var tomorrow := today + MsPerDay;
      var taskDate := Midnight(t.dueDate.value);
      match filter
      case Today => taskDate == today
      case Tomorrow => taskDate == tomorrow
      case Upcoming => taskDate > tomorrow
      case Archived => t.completed
  }

  /** The tasks shown: an order-preserving selection of `tasks`, all of dimension `current`. */
  function FilteredTasks(tasks: seq<Task>, current: Dimension, filter: TimeFilter, now: Timestamp): (r: seq<Task>)
    ensures IsSubsequence(r, tasks)
    ensures forall t :: t in r ==> t.dimension == current
    ensures forall t :: t in r <==> t in tasks && Visible(t, current, filter, now)
  {
    Filter(tasks, t => Visible(t, current, filter, now))
  }

  /** An undated task of the dimension is shown under "today" and nowhere else, whether or not it is completed. */
  lemma UndatedOnlyToday(t: Task, filter: TimeFilter, now: Timestamp)
    requires t.dueDate.None?
    ensures Visible(t, t.dimension, filter, now) <==> filter == Today
  {
  }

  /** For a dated task of the dimension, the buckets in whole days: due today, due tomorrow,
      due after tomorrow, and under "archived" completion alone, whatever the date. */
  lemma DatedByDay(t: Task, filter: TimeFilter, now: Timestamp)
    requires t.dueDate.Some?
    ensures Visible(t, t.dimension, filter, now) <==>
      match filter
      case Today => Day(t.dueDate.value) == Day(now)
      case Tomorrow => Day(t.dueDate.value) == Day(now) + 1
      case Upcoming => Day(t.dueDate.value) > Day(now) + 1
      case Archived => t.completed
  {
  }

  /** Completion is not consulted outside "archived": a completed dated task stays in its date bucket. */
  lemma CompletionIgnoredOutsideArchived(t: Task, current: Dimension, filter: TimeFilter, now: Timestamp)
    requires filter != Archived
    ensures Visible(t, current, filter, now) == Visible(t.(completed := !t.completed), current, filter, now)
  {
  }

  /** A dated task is in at most one of today, tomorrow and upcoming, and in none when it is overdue. */
  lemma DateBucketsDisjoint(t: Task, current: Dimension, f: TimeFilter, g: TimeFilter, now: Timestamp)
    requires t.dueDate.Some? && f != Archived && g != Archived
    requires Visible(t, current, f, now) && Visible(t, current, g, now)
    ensures f == g
    ensures Day(t.dueDate.value) >= Day(now)
  {
    DatedByDay(t, f, now);
    DatedByDay(t, g, now);
  }
}
