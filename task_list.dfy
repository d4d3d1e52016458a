/** The older task-list filter, which takes the time filter as a plain string, and how it relates to the 3D list's. */
module TaskList {
  import opened Wrappers
  import opened Seqs
  import opened Types
  import TaskList3D

  /** The `tasks.filter` callback of the older list. */
  predicate Visible(t: Task, current: Dimension, filter: string, now: Timestamp)
    ensures Visible(t, current, filter, now) ==> t.dimension == current && t.completed == (filter == "archived")
    ensures (Visible(t, current, filter, now) && filter in ["today", "tomorrow", "upcoming"] && t.dueDate.Some?)
      ==> Day(t.dueDate.value) >= Day(now)
  {
    if t.dimension != current then false
    else if filter == "archived" then t.completed
    else if t.completed then false
    else if t.dueDate.None? then filter == "today"
    else
      var today := Midnight(now);
      var tomorrow := today + MsPerDay;
      var upcoming := today + 2 * MsPerDay;
      var dueDate := Midnight(t.dueDate.value);
      if filter == "today" then dueDate == today
      else if filter == "tomorrow" then dueDate == tomorrow
      else if filter == "upcoming" then dueDate >= upcoming
      else true
  }

  /** The tasks shown: an order-preserving selection of `tasks`, all of dimension `current`. */
  function FilteredTasks(tasks: seq<Task>, current: Dimension, filter: string, now: Timestamp): (r: seq<Task>)
    ensures IsSubsequence(r, tasks)
    ensures forall t :: t in r ==> t.dimension == current
    ensures forall t :: t in r <==> t in tasks && Visible(t, current, filter, now)
  {
    Filter(tasks, t => Visible(t, current, filter, now))
  }

  /** "archived" shows exactly the completed tasks of the dimension, dated or not. */
  lemma ArchivedIsCompleted(t: Task, current: Dimension, now: Timestamp)
    ensures Visible(t, current, "archived", now) <==> t.dimension == current && t.completed
  {
  }

  /** Every other filter string hides completed tasks. */
  lemma CompletedOnlyArchived(t: Task, current: Dimension, filter: string, now: Timestamp)
    requires filter != "archived" && t.completed
    ensures !Visible(t, current, filter, now)
  {
  }

  /** Outside "archived", an undated task is shown only under "today", and then exactly when it is open. */
  lemma UndatedOnlyToday(t: Task, filter: string, now: Timestamp)
    requires t.dueDate.None? && filter != "archived"
    ensures Visible(t, t.dimension, filter, now) <==> !t.completed && filter == "today"
  {
  }

  /** For an open dated task of the dimension, the buckets in whole days; an unrecognised filter string
      shows it whatever its date. */
  lemma DatedByDay(t: Task, filter: string, now: Timestamp)
    requires t.dueDate.Some? && !t.completed && filter != "archived"
    ensures filter == "today" ==> (Visible(t, t.dimension, filter, now) <==> Day(t.dueDate.value) == Day(now))
    ensures filter == "tomorrow" ==> (Visible(t, t.dimension, filter, now) <==> Day(t.dueDate.value) == Day(now) + 1)
    ensures filter == "upcoming" ==> (Visible(t, t.dimension, filter, now) <==> Day(t.dueDate.value) >= Day(now) + 2)
    ensures filter != "today" && filter != "tomorrow" && filter != "upcoming" ==> Visible(t, t.dimension, filter, now)
  {
  }

  /** On whole days the older "upcoming" boundary (at least two days ahead) is the 3D list's (after tomorrow). */
  lemma UpcomingBoundariesCoincide(due: Timestamp, now: Timestamp)
    ensures (Midnight(due) >= Midnight(now) + 2 * MsPerDay) <==> (Midnight(due) > Midnight(now) + MsPerDay)
  {
  }

  /** An unrecognised filter string shows every open dated task of the dimension and nothing else. */
  lemma UnknownFilterShowsOpenDated(t: Task, current: Dimension, filter: string, now: Timestamp)
    requires filter != "today" && filter != "tomorrow" && filter != "upcoming" && filter != "archived"
    ensures Visible(t, current, filter, now) <==> t.dimension == current && !t.completed && t.dueDate.Some?
  {
  }

  /** The two filters disagree on a task exactly when it is a completed task of the dimension that the
      3D list shows in a date bucket, or a completed undated task under "archived" (which only the older list shows). */
  lemma FiltersDiffer(t: Task, current: Dimension, f: TimeFilter, now: Timestamp)
    ensures Visible(t, current, FilterId(f), now) != TaskList3D.Visible(t, current, f, now) <==>
      t.dimension == current && t.completed &&
      (if f == Archived then t.dueDate.None? else TaskList3D.Visible(t, current, f, now))
  {
  }

  /** On a list with no completed task, both lists show the same tasks in the same order. */
  lemma {:induction false} FiltersAgreeOnOpenTasks(tasks: seq<Task>, current: Dimension, f: TimeFilter, now: Timestamp)
    requires forall t :: t in tasks ==> !t.completed
    ensures FilteredTasks(tasks, current, FilterId(f), now) == TaskList3D.FilteredTasks(tasks, current, f, now)
  {
    forall t | t in tasks
      ensures Visible(t, current, FilterId(f), now) == TaskList3D.Visible(t, current, f, now)
    {
      FiltersDiffer(t, current, f, now);
    }
    FilterCongruent(tasks, t => Visible(t, current, FilterId(f), now), t => TaskList3D.Visible(t, current, f, now));
  }
}
