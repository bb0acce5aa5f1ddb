/** The pet registry and the per-cat task list: the values kept in the
    module-level `cats` list, the lookup of the active cat, cyclic navigation
    and the task-level operations used by the checklist handlers. */
module Pets {
  import opened Wrappers

  /** A local calendar day; the application uses `Date.toDateString()` as key. */
  type Day = int

  datatype Task = Task(name: string, completed: bool)

  /** A cat profile. `age` is the number read from the setup form. */
  datatype Cat = Cat(name: string, birthday: string, age: real, tasks: seq<Task>)

  // ---------------------------------------------------------------------------
  // Active-cat lookup

  /** `loadCurrentCat`: the cat under the index, or nothing when the index is
      out of range (a negative index yields `undefined` in the application,
      which every caller treats like `null`). */
  function ActiveCat(cats: seq<Cat>, index: int): (r: Option<Cat>)
    ensures r.Some? <==> |cats| > 0 && 0 <= index < |cats|
    ensures r.Some? ==> r.value == cats[index]
  {
    if |cats| > 0 && index < |cats| && 0 <= index then Some(cats[index]) else None
  }

  // ---------------------------------------------------------------------------
  // Cyclic navigation

  /** Euclidean remainder facts for a non-negative dividend. */
  lemma ModOfNatural(x: int, n: int)
    requires 0 <= x && 0 < n
    ensures 0 <= x % n < n
    ensures x < n ==> x % n == x
    ensures x == (x / n) * n + x % n
  {
  }

  /** JavaScript's `%` on integers: truncates toward zero, so the remainder
      takes the sign of the dividend. */
  function JsRem(a: int, n: int): (r: int)
    requires n > 0
    ensures a >= 0 ==> 0 <= r < n
    ensures a < 0 ==> -n < r <= 0
    ensures -n < a < n ==> r == a
    ensures exists q :: a == q * n + r
  {
    if a >= 0 then
      ModOfNatural(a, n);
      assert a == (a / n) * n + a % n;
      a % n
    else
      ModOfNatural(-a, n);
      assert a == (-((-a) / n)) * n + -((-a) % n);
      -((-a) % n)
  }

  /** The `nextCat` click handler's new index: moves only with two or more cats. */
  function NextIndex(index: int, count: nat): (r: int)
    ensures count <= 1 ==> r == index
    ensures count > 1 && 0 <= index < count ==> r == if index == count - 1 then 0 else index + 1
  {
    if count > 1 then JsRem(index + 1, count) else index
  }

  /** The `prevCat` click handler's new index: moves only with two or more cats. */
  function PrevIndex(index: int, count: nat): (r: int)
    ensures count <= 1 ==> r == index
    ensures count > 1 && 0 <= index < count ==> r == if index == 0 then count - 1 else index - 1
  {
    if count > 1 then JsRem(index - 1 + count, count) else index
  }

  /** The index after `k` clicks on "next". */
  function NextTimes(index: int, count: nat, k: nat): (r: int)
  {
    if k == 0 then index else NextIndex(NextTimes(index, count, k - 1), count)
  }

  /** Starting from an index in range, "next" and "prev" stay in range and
      undo each other. */
  lemma PrevUndoesNext(index: int, count: nat)
    requires 0 <= index < count
    ensures 0 <= NextIndex(index, count) < count && 0 <= PrevIndex(index, count) < count
    ensures PrevIndex(NextIndex(index, count), count) == index
    ensures NextIndex(PrevIndex(index, count), count) == index
  {
  }

  /** `k` clicks on "next", for `k` up to the number of cats, rotate the index
      forward by `k` and wrap past the last cat to the first. */
  lemma {:induction false} NextTimesIsRotation(index: int, count: nat, k: nat)
    requires 1 < count && 0 <= index < count && k <= count
    ensures NextTimes(index, count, k) == if index + k < count then index + k else index + k - count
  {
    if k > 0 {
      NextTimesIsRotation(index, count, k - 1);
    }
  }

  /** As many clicks on "next" as there are cats bring the index back; with
      at most one cat no click moves it. */
  lemma NextCycle(index: int, count: nat)
    requires 0 <= index < count
    ensures NextTimes(index, count, count) == index
  {
    if count > 1 {
      NextTimesIsRotation(index, count, count);
    } else {
      NextTimesFixed(index, count, count);
    }
  }

  /** With at most one cat the index never moves. */
  lemma {:induction false} NextTimesFixed(index: int, count: nat, k: nat)
    requires count <= 1
    ensures NextTimes(index, count, k) == index
  {
    if k > 0 {
      NextTimesFixed(index, count, k - 1);
    }
  }

  // ---------------------------------------------------------------------------
  // Creating a cat

  /** The cat built by `handlePetSetup` from the form: every checked task
      option becomes a task that is not yet completed. */
  function NewCat(name: string, birthday: string, age: real, taskNames: seq<string>): (c: Cat)
    ensures c.name == name && c.birthday == birthday && c.age == age
    ensures |c.tasks| == |taskNames|
    ensures forall i :: 0 <= i < |taskNames| ==> c.tasks[i].name == taskNames[i]
    ensures forall i :: 0 <= i < |c.tasks| ==> !c.tasks[i].completed
  {
    Cat(name, birthday, age, seq(|taskNames|, i requires 0 <= i < |taskNames| => Task(taskNames[i], false)))
  }

  // ---------------------------------------------------------------------------
  // Task operations

  /** `tasks.every(task => task.completed)`. */
  predicate AllTasksDone(tasks: seq<Task>)
  {
    forall i :: 0 <= i < |tasks| ==> tasks[i].completed
  }

  /** `tasks.filter(t => t.completed).length`: never more than the task
      count, and equal to it exactly when every task is done. */
  function CountCompleted(tasks: seq<Task>): (n: nat)
    ensures n <= |tasks|
    ensures n == |tasks| <==> AllTasksDone(tasks)
  {
    if tasks == [] then 0
    else (if tasks[0].completed then 1 else 0) + CountCompleted(tasks[1..])
  }

  /** Counting completed tasks adds up over a split list, so together with
      the bounds above it counts exactly the completed tasks. */
  lemma {:induction false} CountCompletedAppend(a: seq<Task>, b: seq<Task>)
    ensures CountCompleted(a + b) == CountCompleted(a) + CountCompleted(b)
  {
    if a == [] {
      assert a + b == b;
    } else {
      assert (a + b)[0] == a[0];
      assert (a + b)[1..] == a[1..] + b;
      CountCompletedAppend(a[1..], b);
    }
  }

  /** One checkbox change: only the task at `index` takes the new flag. */
  function SetTaskCompleted(tasks: seq<Task>, index: nat, completed: bool): (r: seq<Task>)
    requires index < |tasks|
    ensures |r| == |tasks|
    ensures r[index].name == tasks[index].name && r[index].completed == completed
    ensures forall i :: 0 <= i < |tasks| && i != index ==> r[i] == tasks[i]
  {
    tasks[index := tasks[index].(completed := completed)]
  }

  /** Every task of a list set to not completed, names and order kept. */
  function ClearTasks(tasks: seq<Task>): (r: seq<Task>)
    ensures |r| == |tasks|
    ensures forall i :: 0 <= i < |r| ==> r[i].name == tasks[i].name && !r[i].completed
  {
    if tasks == [] then [] else [tasks[0].(completed := false)] + ClearTasks(tasks[1..])
  }

  /** A cat with every task cleared and its profile kept. */
  function ClearCat(c: Cat): (r: Cat)
    ensures r.name == c.name && r.birthday == c.birthday && r.age == c.age
    ensures |r.tasks| == |c.tasks| && CountCompleted(r.tasks) == 0
    ensures forall i :: 0 <= i < |c.tasks| ==> r.tasks[i] == Task(c.tasks[i].name, false)
  {
    var r := c.(tasks := ClearTasks(c.tasks));
    NoneCompletedCountsZero(r.tasks);
    r
  }

  /** A list with no completed task counts zero completions. */
  lemma {:induction false} NoneCompletedCountsZero(tasks: seq<Task>)
    requires forall i :: 0 <= i < |tasks| ==> !tasks[i].completed
    ensures CountCompleted(tasks) == 0
  {
    if tasks != [] {
      NoneCompletedCountsZero(tasks[1..]);
    }
  }

  /** Every cat of the registry with its tasks cleared, cats kept in order. */
  function ClearAllCats(cats: seq<Cat>): (r: seq<Cat>)
    ensures |r| == |cats|
    ensures forall i :: 0 <= i < |r| ==> r[i] == ClearCat(cats[i])
  {
    if cats == [] then [] else [ClearCat(cats[0])] + ClearAllCats(cats[1..])
  }

  /** Clearing twice is clearing once. */
  lemma ClearCatIdempotent(c: Cat)
    ensures ClearCat(ClearCat(c)) == ClearCat(c)
  {
  }

  // ---------------------------------------------------------------------------
  // Completion message

  /** `checkCompletion`: the message is shown iff the active cat has at least
      one task and all of them are completed; with no active cat the message
      is left as it is (None). */
  function CompletionShown(cats: seq<Cat>, index: int): (r: Option<bool>)
    ensures r.None? <==> ActiveCat(cats, index).None?
    ensures r.Some? ==> (r.value <==> 0 < CountCompleted(cats[index].tasks) == |cats[index].tasks|)
  {
    match ActiveCat(cats, index)
    case None => None
    case Some(cat) => Some(AllTasksDone(cat.tasks) && |cat.tasks| > 0)
  }
}
