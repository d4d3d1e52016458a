/** The whole-list transformations behind the page's task handlers, and the achievement counter. */
module TaskStore {
  import opened Wrappers
  import opened Seqs
  import opened Types

  /** No two tasks share an id (ids come from a UUID generator). */
  predicate UniqueIds(tasks: seq<Task>)
  {
    forall i, j :: 0 <= i < j < |tasks| ==> tasks[i].id != tasks[j].id
  }

  predicate HasId(tasks: seq<Task>, id: string)
  {
    exists i :: 0 <= i < |tasks| && tasks[i].id == id
  }

  /** An absent `recurring` property reads as false. */
  function IsRecurring(t: Task): (b: bool)
    ensures b <==> t.recurring == Some(true)
  {
    t.recurring.GetOr(false)
  }

  // ---- addTask ----

  /** The record built for a new task: open, due and created now, with no `recurring` property. */
  function NewTask(id: string, title: string, dimension: Dimension, now: Timestamp): (t: Task)
    ensures t.id == id && t.title == title && t.dimension == dimension
    ensures !t.completed && !IsRecurring(t) && t.createdAt == now
    ensures t.dueDate.Some? && Day(t.dueDate.value) == Day(now)
  {
    Task(id, title, false, dimension, Some(now), None, now)
  }

  /** `[...tasks, newTask]`. */
  function AddTask(tasks: seq<Task>, id: string, title: string, dimension: Dimension, now: Timestamp): (r: seq<Task>)
    ensures |r| == |tasks| + 1 && r[..|tasks|] == tasks
    ensures r[|tasks|].id == id && r[|tasks|].title == title && r[|tasks|].dimension == dimension
    ensures !r[|tasks|].completed && r[|tasks|].dueDate == Some(now) && r[|tasks|].createdAt == now
  {
    tasks + [NewTask(id, title, dimension, now)]
  }

  /** Appending a task with a fresh id keeps the ids unique. */
  lemma AddTaskKeepsIdsUnique(tasks: seq<Task>, id: string, title: string, dimension: Dimension, now: Timestamp)
    requires UniqueIds(tasks) && !HasId(tasks, id)
    ensures UniqueIds(AddTask(tasks, id, title, dimension, now))
  {
  }

  // ---- completeTask ----

  /** The `map` callback of `handleCompleteTask`. */
  function FlipCompleted(t: Task, id: string): (r: Task)
    ensures r.(completed := t.completed) == t
    ensures r == t <==> t.id != id
  {
    if t.id == id then t.(completed := !t.completed) else t
  }

  /** `tasks.map(...)` with that callback: ids stay where they were, so unique ids stay unique. */
  function ToggleCompleted(tasks: seq<Task>, id: string): (r: seq<Task>)
    ensures |r| == |tasks| && forall i :: 0 <= i < |tasks| ==> r[i].id == tasks[i].id
    ensures UniqueIds(tasks) ==> UniqueIds(r)
  {
    Map(tasks, t => FlipCompleted(t, id))
  }

  /** Only the `completed` flag of the tasks with that id changes; length, order and every other field stay. */
  lemma ToggleCompletedChangesOnlyFlag(tasks: seq<Task>, id: string, i: nat)
    requires i < |tasks|
    ensures |ToggleCompleted(tasks, id)| == |tasks|
    ensures ToggleCompleted(tasks, id)[i].completed == (tasks[i].completed != (tasks[i].id == id))
    ensures ToggleCompleted(tasks, id)[i].(completed := tasks[i].completed) == tasks[i]
  {
  }

  /** An id that no task has leaves the list as it was. */
  lemma ToggleCompletedUnknownId(tasks: seq<Task>, id: string)
    requires !HasId(tasks, id)
    ensures ToggleCompleted(tasks, id) == tasks
  {
    var r := ToggleCompleted(tasks, id);
    assert forall i :: 0 <= i < |tasks| ==> r[i] == tasks[i];
  }

  /** Completing twice restores the list. */
  lemma ToggleCompletedTwice(tasks: seq<Task>, id: string)
    ensures ToggleCompleted(ToggleCompleted(tasks, id), id) == tasks
  {
    var r := ToggleCompleted(ToggleCompleted(tasks, id), id);
    assert forall i :: 0 <= i < |tasks| ==> r[i] == tasks[i];
  }

  /** The number of times the `map` callback bumps the counter: tasks with that id that become completed
      while in the active dimension. */
  function CounterBumps(tasks: seq<Task>, id: string, active: Dimension): (n: nat)
    ensures n <= |tasks|
    ensures n > 0 <==> exists t :: t in tasks && t.id == id && !t.completed && t.dimension == active
  {
    if tasks == [] then 0
    else
      var bump := if tasks[0].id == id && !tasks[0].completed && tasks[0].dimension == active then 1 else 0;
      bump + CounterBumps(tasks[1..], id, active)
  }

  /** With unique ids the counter moves by exactly one when the task becomes completed in the active
      dimension, and otherwise not at all. */
  lemma {:induction false} CounterBumpsAtMostOnce(tasks: seq<Task>, id: string, active: Dimension)
    requires UniqueIds(tasks)
    ensures CounterBumps(tasks, id, active) <= 1
    ensures CounterBumps(tasks, id, active) == 1 <==>
      exists t :: t in tasks && t.id == id && !t.completed && t.dimension == active
  {
    if tasks != [] {
      CounterBumpsAtMostOnce(tasks[1..], id, active);
      if tasks[0].id == id {
        CounterBumpsUnknownId(tasks[1..], id, active);
      }
    }
  }

  /** Tasks without that id never bump the counter. */
  lemma {:induction false} CounterBumpsUnknownId(tasks: seq<Task>, id: string, active: Dimension)
    requires forall t :: t in tasks ==> t.id != id
    ensures CounterBumps(tasks, id, active) == 0
  {
    if tasks != [] {
      CounterBumpsUnknownId(tasks[1..], id, active);
    }
  }

  /** Completing and then un-completing bumps the counter once per task of that id in the active dimension:
      un-completing never counts, so a double toggle is never counted twice. */
  lemma {:induction false} ToggleTwiceBumpsOnce(tasks: seq<Task>, id: string, active: Dimension)
    ensures CounterBumps(tasks, id, active) + CounterBumps(ToggleCompleted(tasks, id), id, active)
      == |Filter(tasks, (t: Task) => t.id == id && t.dimension == active)|
  {
    if tasks != [] {
      assert ToggleCompleted(tasks, id)[1..] == ToggleCompleted(tasks[1..], id);
      ToggleTwiceBumpsOnce(tasks[1..], id, active);
    }
  }

  // ---- deleteTask ----

  /** `tasks.filter(task => task.id !== id)`. */
  function DeleteTask(tasks: seq<Task>, id: string): (r: seq<Task>)
    ensures forall t :: multiset(r)[t] == if t.id == id then 0 else multiset(tasks)[t]
  {
    Filter(tasks, (t: Task) => t.id != id)
  }

  /** Deleting removes exactly the tasks with that id and keeps the rest in order. */
  lemma DeleteTaskRemovesId(tasks: seq<Task>, id: string)
    ensures IsSubsequence(DeleteTask(tasks, id), tasks)
    ensures forall t :: t in DeleteTask(tasks, id) <==> t in tasks && t.id != id
  {
  }

  /** Deleting an id that no task has leaves the list as it was. */
  lemma DeleteTaskUnknownId(tasks: seq<Task>, id: string)
    requires !HasId(tasks, id)
    ensures DeleteTask(tasks, id) == tasks
  {
    forall t | t in tasks
      ensures t.id != id
    {
      var i :| 0 <= i < |tasks| && tasks[i] == t;
    }
    FilterKeepsAll(tasks, (t: Task) => t.id != id);
  }

  /** Any filter of a list with unique ids has unique ids. */
  lemma {:induction false} FilterKeepsIdsUnique(tasks: seq<Task>, p: Task -> bool)
    requires UniqueIds(tasks)
    ensures UniqueIds(Filter(tasks, p))
  {
    if tasks != [] {
      UniqueIdsSplit(tasks);
      FilterKeepsIdsUnique(tasks[1..], p);
      if p(tasks[0]) {
        UniqueIdsJoin(tasks[0], Filter(tasks[1..], p));
      }
    }
  }

  /** A list with unique ids: its head's id is not in its tail, whose ids are unique. */
  lemma UniqueIdsSplit(tasks: seq<Task>)
    requires UniqueIds(tasks) && tasks != []
    ensures UniqueIds(tasks[1..])
    ensures forall t :: t in tasks[1..] ==> t.id != tasks[0].id
  {
    forall t | t in tasks[1..]
      ensures t.id != tasks[0].id
    {
      var i :| 0 <= i < |tasks[1..]| && tasks[1..][i] == t;
      assert tasks[i + 1] == t;
    }
  }

  /** A task whose id is not in a list with unique ids can be put in front of it. */
  lemma UniqueIdsJoin(head: Task, rest: seq<Task>)
    requires UniqueIds(rest)
    requires forall t :: t in rest ==> t.id != head.id
    ensures UniqueIds([head] + rest)
  {
    var r := [head] + rest;
    forall i, j | 0 <= i < j < |r|
      ensures r[i].id != r[j].id
    {
      if i > 0 {
        assert r[i] == rest[i - 1] && r[j] == rest[j - 1];
      } else {
        assert r[j] == rest[j - 1];
      }
    }
  }

  // ---- toggleRecurring ----

  /** The `map` callback of `handleToggleRecurring`: `recurring: !task.recurring`. */
  function FlipRecurring(t: Task, id: string): (r: Task)
    ensures r.(recurring := t.recurring) == t
    ensures t.id == id ==> IsRecurring(r) == !IsRecurring(t) && r.recurring.Some?
    ensures t.id != id ==> r == t
  {
    if t.id == id then t.(recurring := Some(!IsRecurring(t))) else t
  }

  /** `tasks.map(...)` with that callback: ids stay where they were, so unique ids stay unique. */
  function ToggleRecurring(tasks: seq<Task>, id: string): (r: seq<Task>)
    ensures |r| == |tasks| && forall i :: 0 <= i < |tasks| ==> r[i].id == tasks[i].id
    ensures UniqueIds(tasks) ==> UniqueIds(r)
  {
    Map(tasks, t => FlipRecurring(t, id))
  }

  /** Only the recurring flag of the tasks with that id flips (an absent flag counts as false and becomes true);
      length, order and every other field stay. */
  lemma ToggleRecurringChangesOnlyFlag(tasks: seq<Task>, id: string, i: nat)
    requires i < |tasks|
    ensures |ToggleRecurring(tasks, id)| == |tasks|
    ensures IsRecurring(ToggleRecurring(tasks, id)[i]) == (IsRecurring(tasks[i]) != (tasks[i].id == id))
    ensures ToggleRecurring(tasks, id)[i].(recurring := tasks[i].recurring) == tasks[i]
  {
  }

  /** An id that no task has leaves the list as it was. */
  lemma ToggleRecurringUnknownId(tasks: seq<Task>, id: string)
    requires !HasId(tasks, id)
    ensures ToggleRecurring(tasks, id) == tasks
  {
    var r := ToggleRecurring(tasks, id);
    assert forall i :: 0 <= i < |tasks| ==> r[i] == tasks[i];
  }

  /** Toggling twice restores the list when the toggled tasks carry a `recurring` property; an absent one
      comes back as an explicit false. */
  lemma ToggleRecurringTwice(tasks: seq<Task>, id: string)
    ensures |ToggleRecurring(ToggleRecurring(tasks, id), id)| == |tasks|
    ensures forall i :: 0 <= i < |tasks| ==>
      ToggleRecurring(ToggleRecurring(tasks, id), id)[i] ==
        if tasks[i].id == id && tasks[i].recurring.None? then tasks[i].(recurring := Some(false)) else tasks[i]
    ensures (forall t :: t in tasks && t.id == id ==> t.recurring.Some?) ==>
      ToggleRecurring(ToggleRecurring(tasks, id), id) == tasks
  {
    var r := ToggleRecurring(ToggleRecurring(tasks, id), id);
    if forall t :: t in tasks && t.id == id ==> t.recurring.Some? {
      forall i | 0 <= i < |tasks|
        ensures r[i] == tasks[i]
      {
        assert tasks[i] in tasks;
      }
    }
  }

  // ---- the achievement effect ----

  const AchievementThreshold: nat := 5

  /** The effect run after each counter change: at the threshold the modal is shown and the counter restarts. */
  function AchievementEffect(count: nat, shown: bool): (r: (nat, bool))
    ensures r.0 < AchievementThreshold
    ensures r.1 == (shown || count >= AchievementThreshold)
    ensures count < AchievementThreshold ==> r.0 == count
    ensures count >= AchievementThreshold ==> r == (0, true)
  {
    if count >= AchievementThreshold then (0, true) else (count, shown)
  }

  /** The counter and the number of achievements shown after `n` qualifying completions, one per handler,
      starting from `count`. */
  function AfterCompletions(count: nat, n: nat): (r: (nat, nat))
    ensures (n > 0 || count < AchievementThreshold) ==> r.0 < AchievementThreshold
    ensures r.1 <= n
    decreases n
  {
    if n == 0 then (count, 0)
    else
      var next := AchievementEffect(count + 1, false);
      var rest := AfterCompletions(next.0, n - 1);
      (rest.0, rest.1 + if next.1 then 1 else 0)
  }

  /** Every fifth qualifying completion fires exactly one achievement and the counter keeps the remainder:
      five completions from zero fire once and leave zero, and the sixth to ninth fire nothing. */
  lemma {:induction false} CompletionsFireEveryFifth(count: nat, n: nat)
    requires count < AchievementThreshold
    ensures AfterCompletions(count, n) == ((count + n) % AchievementThreshold, (count + n) / AchievementThreshold)
    decreases n
  {
    if n > 0 {
      var next := AchievementEffect(count + 1, false);
      CompletionsFireEveryFifth(next.0, n - 1);
      if count + 1 == AchievementThreshold {
        assert next.0 == 0;
        assert (count + n) / 5 == 1 + (n - 1) / 5;
        assert (count + n) % 5 == (n - 1) % 5;
      } else {
        assert next.0 == count + 1;
      }
    }
  }
}
