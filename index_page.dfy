/** The root page: the task list, the selected dimension and time filter, the two-phase dimension
    transition, and the achievement counter. Each handler is one atomic step, followed by the
    achievement effect where the counter changed. */
module IndexPage {
  import opened Wrappers
  import opened Types
  import opened TaskStore
  import Dimensions
  import TaskList3D
  import Seqs

  /** The toast notifications the page raises, in the order raised. */
  datatype Notice = TaskCreated(title: string) | TaskDeleted | DimensionChanged(name: string)

  /** The display name the "Dimension Changed" toast gives a dimension: the catalogue's name for it. */
  function ToastName(d: Dimension): (name: string)
    ensures name == Dimensions.GetDimension(DimensionId(d)).name
  {
    Dimensions.GetDimensionOfId(d);
    if d == Cyber then "Neon Overdrive" else if d == Magic then "Arcane Wonders" else "Void Runner"
  }

  /** The six demo tasks the page starts with: per dimension one open task due today and one open
      recurring task due tomorrow, all created now and carrying the generated ids in order. */
  function DemoTasks(ids: seq<string>, now: Timestamp): (demo: seq<Task>)
    requires |ids| == 6
    ensures |demo| == 6
    ensures forall i :: 0 <= i < 6 ==> demo[i].id == ids[i] && !demo[i].completed && demo[i].createdAt == now
    ensures forall d: Dimension :: demo[DemoIndex(d)].dimension == d && demo[DemoIndex(d) + 1].dimension == d
    ensures forall d: Dimension :: demo[DemoIndex(d)].dueDate == Some(now) && !IsRecurring(demo[DemoIndex(d)])
    ensures forall d: Dimension :: demo[DemoIndex(d) + 1].dueDate == Some(now + MsPerDay) && IsRecurring(demo[DemoIndex(d) + 1])
  {
    [ Task(ids[0], "Hack into the mainframe", false, Cyber, Some(now), Some(false), now),
      Task(ids[1], "Update neural interface", false, Cyber, Some(now + MsPerDay), Some(true), now),
      Task(ids[2], "Study ancient spellbook", false, Magic, Some(now), Some(false), now),
      Task(ids[3], "Mix potion ingredients", false, Magic, Some(now + MsPerDay), Some(true), now),
      Task(ids[4], "Meditate in the void", false, Void, Some(now), Some(false), now),
      Task(ids[5], "Contemplate cosmic entropy", false, Void, Some(now + MsPerDay), Some(true), now) ]
  }

  /** Distinct generated ids give a demo list with unique ids. */
  lemma DemoTasksUniqueIds(ids: seq<string>, now: Timestamp)
    requires |ids| == 6
    requires forall i, j :: 0 <= i < j < 6 ==> ids[i] != ids[j]
    ensures UniqueIds(DemoTasks(ids, now))
  {
  }

  /** The demo task of dimension `d` that is due today; the one after it is due tomorrow. */
  function DemoIndex(d: Dimension): (i: nat)
    ensures i + 1 < 6
  {
    if d == Cyber then 0 else if d == Magic then 2 else 4
  }

  /** Rendered any time on the day the page loads (`now` builds the tasks, `render` is the clock the
      list reads), each dimension's "today" view shows exactly its first demo task. */
  lemma DemoTodayView(ids: seq<string>, now: Timestamp, render: Timestamp, d: Dimension)
    requires |ids| == 6
    requires Day(render) == Day(now)
    ensures TaskList3D.FilteredTasks(DemoTasks(ids, now), d, Today, render) == [DemoTasks(ids, now)[DemoIndex(d)]]
  {
    assert Day(now + MsPerDay) == Day(render) + 1;
    Seqs.FilterSingle(DemoTasks(ids, now), t => TaskList3D.Visible(t, d, Today, render), DemoIndex(d));
  }

  /** On that day each dimension's "tomorrow" view shows exactly its second demo task. */
  lemma DemoTomorrowView(ids: seq<string>, now: Timestamp, render: Timestamp, d: Dimension)
    requires |ids| == 6
    requires Day(render) == Day(now)
    ensures TaskList3D.FilteredTasks(DemoTasks(ids, now), d, Tomorrow, render) == [DemoTasks(ids, now)[DemoIndex(d) + 1]]
  {
    assert Day(now + MsPerDay) == Day(render) + 1;
    Seqs.FilterSingle(DemoTasks(ids, now), t => TaskList3D.Visible(t, d, Tomorrow, render), DemoIndex(d) + 1);
  }

  /** On that day no demo task is upcoming or archived. */
  lemma DemoLaterViewsEmpty(ids: seq<string>, now: Timestamp, render: Timestamp, d: Dimension)
    requires |ids| == 6
    requires Day(render) == Day(now)
    ensures TaskList3D.FilteredTasks(DemoTasks(ids, now), d, Upcoming, render) == []
    ensures TaskList3D.FilteredTasks(DemoTasks(ids, now), d, Archived, render) == []
  {
    var demo := DemoTasks(ids, now);
    assert Day(now + MsPerDay) == Day(render) + 1;
    forall j | 0 <= j < |demo|
      ensures !TaskList3D.Visible(demo[j], d, Upcoming, render) && !TaskList3D.Visible(demo[j], d, Archived, render)
    {
      assert demo[j] in demo;
    }
    Seqs.FilterNone(demo, t => TaskList3D.Visible(t, d, Upcoming, render));
    Seqs.FilterNone(demo, t => TaskList3D.Visible(t, d, Archived, render));
  }

  /** The page's state as one value, so that a handler's effect can be stated field by field. */
  datatype PageState = PageState(
    activeDimension: Dimension,
    timeFilter: TimeFilter,
    tasks: seq<Task>,
    showAchievement: bool,
    completedCount: nat,
    isTransitioning: bool,
    transitionTarget: Option<Dimension>,
    notices: seq<Notice>)

  class Page {
    var activeDimension: Dimension
    var timeFilter: TimeFilter
    var tasks: seq<Task>
    var showAchievement: bool
    var completedCount: nat
    var isTransitioning: bool
    var transitionTarget: Option<Dimension>
    var notices: seq<Notice>

    function State(): PageState
      reads this
    {
      PageState(activeDimension, timeFilter, tasks, showAchievement, completedCount,
        isTransitioning, transitionTarget, notices)
    }

    /** Ids are unique, the counter is below the threshold once the effect has run, a transition is in flight
        exactly when it has a target, and that target is never the dimension already active. */
    ghost predicate Valid()
      reads this
    {
      && UniqueIds(tasks)
      && completedCount < AchievementThreshold
      && (isTransitioning <==> transitionTarget.Some?)
      && (transitionTarget.Some? ==> transitionTarget.value != activeDimension)
    }

    /** The initial state: cyber, "today", the given tasks, no modal, counter zero, no transition. */
    constructor (initialTasks: seq<Task>)
      requires UniqueIds(initialTasks)
      ensures Valid()
      ensures State() == PageState(Cyber, Today, initialTasks, false, 0, false, None, [])
    {
      activeDimension := Cyber;
      timeFilter := Today;
      tasks := initialTasks;
      showAchievement := false;
      completedCount := 0;
      isTransitioning := false;
      transitionTarget := None;
      notices := [];
    }

    /** The tasks the page hands to the 3D list. */
    function VisibleTasks(now: Timestamp): (r: seq<Task>)
      reads this
      ensures forall t :: t in r <==> t in tasks && TaskList3D.Visible(t, activeDimension, timeFilter, now)
      ensures forall t :: t in r ==> t.dimension == activeDimension
    {
      TaskList3D.FilteredTasks(tasks, activeDimension, timeFilter, now)
    }

    /** Requesting the active dimension changes nothing; any other dimension becomes the pending target,
        replacing an earlier pending one, while the active dimension stays until the transition completes. */
    method DimensionChange(dimension: Dimension)
      requires Valid()
      modifies this
      ensures Valid()
      ensures dimension == old(activeDimension) ==> State() == old(State())
      ensures dimension != old(activeDimension) ==>
        State() == old(State()).(transitionTarget := Some(dimension), isTransitioning := true)
    {
      if dimension == activeDimension {
        return;
      }
      transitionTarget := Some(dimension);
      isTransitioning := true;
    }

    /** The portal's timer expiring: a pending target becomes the active dimension, the transition ends and
        a toast names the new dimension; with no target nothing happens. */
    method TransitionComplete()
      requires Valid()
      modifies this
      ensures Valid() && !isTransitioning && transitionTarget.None?
      ensures old(transitionTarget).None? ==> State() == old(State())
      ensures old(transitionTarget).Some? ==>
        State() == old(State()).(activeDimension := old(transitionTarget).value, transitionTarget := None,
          isTransitioning := false, notices := old(notices) + [DimensionChanged(ToastName(old(transitionTarget).value))])
    {
      if transitionTarget.Some? {
        var target := transitionTarget.value;
        activeDimension := target;
        transitionTarget := None;
        isTransitioning := false;
        notices := notices + [DimensionChanged(ToastName(target))];
      }
    }

    /** Appends one open task due and created `now`; `id` stands for a fresh UUID. */
    method AddTask(id: string, title: string, dimension: Dimension, now: Timestamp)
      requires Valid() && !HasId(tasks, id)
      modifies this
      ensures Valid()
      ensures State() == old(State()).(tasks := TaskStore.AddTask(old(tasks), id, title, dimension, now),
        notices := old(notices) + [TaskCreated(title)])
    {
      AddTaskKeepsIdsUnique(tasks, id, title, dimension, now);
      tasks := TaskStore.AddTask(tasks, id, title, dimension, now);
      notices := notices + [TaskCreated(title)];
    }

    /** Flips completion of the task with that id. The counter goes up by one exactly when that task becomes
        completed in the active dimension; on reaching the threshold the modal opens and the counter restarts. */
    method CompleteTask(id: string)
      requires Valid()
      modifies this
      ensures Valid()
      ensures var bumped := exists t :: t in old(tasks) && t.id == id && !t.completed && t.dimension == old(activeDimension);
        var raised := old(completedCount) + (if bumped then 1 else 0);
        State() == old(State()).(tasks := ToggleCompleted(old(tasks), id),
          completedCount := if raised == AchievementThreshold then 0 else raised,
          showAchievement := old(showAchievement) || raised == AchievementThreshold)
    {
      CounterBumpsAtMostOnce(tasks, id, activeDimension);
      var bumps := CounterBumps(tasks, id, activeDimension);
      tasks := ToggleCompleted(tasks, id);
      var after := AchievementEffect(completedCount + bumps, showAchievement);
      completedCount, showAchievement := after.0, after.1;
    }

    /** Removes every task with that id, keeping the order of the rest, and raises a toast even when none matched. */
    method DeleteTask(id: string)
      requires Valid()
      modifies this
      ensures Valid()
      ensures State() == old(State()).(tasks := TaskStore.DeleteTask(old(tasks), id),
        notices := old(notices) + [TaskDeleted])
    {
      FilterKeepsIdsUnique(tasks, (t: Task) => t.id != id);
      tasks := TaskStore.DeleteTask(tasks, id);
      notices := notices + [TaskDeleted];
    }

    /** Flips the recurring flag of the task with that id. */
    method ToggleRecurring(id: string)
      requires Valid()
      modifies this
      ensures Valid()
      ensures State() == old(State()).(tasks := TaskStore.ToggleRecurring(old(tasks), id))
    {
      tasks := TaskStore.ToggleRecurring(tasks, id);
    }

    /** The time-filter menu picks a view. */
    method SelectTimeFilter(filter: TimeFilter)
      requires Valid()
      modifies this
      ensures Valid()
      ensures State() == old(State()).(timeFilter := filter)
    {
      timeFilter := filter;
    }

    /** Closing the achievement modal hides it and leaves the counter alone. */
    method CloseAchievement()
      requires Valid()
      modifies this
      ensures Valid()
      ensures State() == old(State()).(showAchievement := false)
    {
      showAchievement := false;
    }
  }
}
