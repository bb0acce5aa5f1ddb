/** The application state as one value, and what each handler of the
    checklist does to it. These functions specify the methods of `Pawfect.App`;
    the lemmas state what the handlers promise across calls. */
module Transitions {
  import opened Wrappers
  import opened Pets
  import opened History

  /** The module-level `cats` and `currentCatIndex`, the stored last-reset day
      and the stored history list. */
  datatype State = State(cats: seq<Cat>, currentCatIndex: int, lastReset: Option<Day>, history: seq<Entry>)

  /** The empty store seen on first start: no cats, index 0, no marker, no history. */
  const Initial := State([], 0, None, [])

  /** With at least one cat, the index names one of them. */
  predicate IndexValid(s: State)
  {
    |s.cats| > 0 ==> 0 <= s.currentCatIndex < |s.cats|
  }

  // ---------------------------------------------------------------------------
  // Registry handlers

  /** The `nextCat` click handler. */
  function Next(s: State): (t: State)
    ensures t.cats == s.cats && t.lastReset == s.lastReset && t.history == s.history
    ensures |s.cats| <= 1 ==> t == s
    ensures IndexValid(s) ==> IndexValid(t)
  {
    s.(currentCatIndex := NextIndex(s.currentCatIndex, |s.cats|))
  }

  /** The `prevCat` click handler. */
  function Prev(s: State): (t: State)
    ensures t.cats == s.cats && t.lastReset == s.lastReset && t.history == s.history
    ensures |s.cats| <= 1 ==> t == s
    ensures IndexValid(s) ==> IndexValid(t)
  {
    s.(currentCatIndex := PrevIndex(s.currentCatIndex, |s.cats|))
  }

  /** `n` clicks on "next". */
  function NextN(s: State, n: nat): (t: State)
  {
    if n == 0 then s else Next(NextN(s, n - 1))
  }

  /** The registry part of `handlePetSetup`: the new cat goes at the end, and
      the index is set to 0 only when it is the first cat. */
  function AddCat(s: State, name: string, birthday: string, age: real, taskNames: seq<string>): (t: State)
    ensures t.cats == s.cats + [NewCat(name, birthday, age, taskNames)]
    ensures |t.cats| == |s.cats| + 1 && t.cats[..|s.cats|] == s.cats
    ensures t.cats[|s.cats|].name == name && |t.cats[|s.cats|].tasks| == |taskNames|
    ensures forall i :: 0 <= i < |taskNames| ==>
              t.cats[|s.cats|].tasks[i] == Task(taskNames[i], false)
    ensures t.currentCatIndex == if |s.cats| == 0 then 0 else s.currentCatIndex
    ensures t.lastReset == s.lastReset && t.history == s.history
    ensures IndexValid(s) ==> IndexValid(t)
  {
    var cats := s.cats + [NewCat(name, birthday, age, taskNames)];
    assert cats[..|s.cats|] == s.cats;
    s.(cats := cats, currentCatIndex := if |cats| == 1 then 0 else s.currentCatIndex)
  }

  // ---------------------------------------------------------------------------
  // Task handlers

  /** What the checklist may ask of `toggleTask`: an index of one of the active
      cat's tasks (it only renders those). */
  predicate ToggleAllowed(s: State, index: int)
  {
    ActiveCat(s.cats, s.currentCatIndex).Some? ==>
      0 <= index < |s.cats[s.currentCatIndex].tasks|
  }

  /** `saveToHistory`: with an active cat, record its completed and total task
      counts for today and prune; with none, nothing happens. */
  function SaveHistory(s: State, today: Day, cutoff: Day): (t: State)
    ensures t.cats == s.cats && t.currentCatIndex == s.currentCatIndex && t.lastReset == s.lastReset
    ensures ActiveCat(s.cats, s.currentCatIndex).None? ==> t == s
    ensures forall i :: 0 <= i < |t.history| ==> t.history[i] in s.history || t.history[i].date == today
    ensures ActiveCat(s.cats, s.currentCatIndex).Some? ==>
              forall i :: 0 <= i < |t.history| ==> t.history[i].date >= cutoff
  {
    match ActiveCat(s.cats, s.currentCatIndex)
    case None => s
    case Some(cat) =>
      s.(history := Record(s.history, today, cat.name, CountCompleted(cat.tasks), |cat.tasks|, cutoff))
  }

  /** `toggleTask`: with an active cat, set one task's flag, then save the
      day's summary to the history; with none, nothing happens. */
  function Toggle(s: State, index: int, completed: bool, today: Day, cutoff: Day): (t: State)
    requires ToggleAllowed(s, index)
    ensures ActiveCat(s.cats, s.currentCatIndex).None? ==> t == s
    ensures |t.cats| == |s.cats| && t.currentCatIndex == s.currentCatIndex && t.lastReset == s.lastReset
    ensures forall i :: 0 <= i < |s.cats| && i != s.currentCatIndex ==> t.cats[i] == s.cats[i]
    ensures ActiveCat(s.cats, s.currentCatIndex).Some? ==>
              t.cats[s.currentCatIndex]
                == s.cats[s.currentCatIndex].(tasks := SetTaskCompleted(s.cats[s.currentCatIndex].tasks, index, completed))
    ensures IndexValid(s) ==> IndexValid(t)
  {
    match ActiveCat(s.cats, s.currentCatIndex)
    case None => s
    case Some(cat) =>
      var cat' := cat.(tasks := SetTaskCompleted(cat.tasks, index, completed));
      SaveHistory(s.(cats := s.cats[s.currentCatIndex := cat']), today, cutoff)
  }

  /** The confirmed branch of `resetDay`: every task of the active cat becomes
      incomplete; other cats, the index, the marker and the history stay. */
  function ResetDay(s: State): (t: State)
    ensures ActiveCat(s.cats, s.currentCatIndex).None? ==> t == s
    ensures |t.cats| == |s.cats| && t.currentCatIndex == s.currentCatIndex
    ensures t.lastReset == s.lastReset && t.history == s.history
    ensures forall i :: 0 <= i < |s.cats| && i != s.currentCatIndex ==> t.cats[i] == s.cats[i]
    ensures ActiveCat(s.cats, s.currentCatIndex).Some? ==>
              t.cats[s.currentCatIndex] == ClearCat(s.cats[s.currentCatIndex])
  {
    match ActiveCat(s.cats, s.currentCatIndex)
    case None => s
    case Some(cat) => s.(cats := s.cats[s.currentCatIndex := ClearCat(cat)])
  }

  /** The reset branch of `checkMidnightReset`: when the stored marker is not
      today (or is missing), every task of every cat becomes incomplete and the
      marker becomes today; otherwise nothing changes. */
  function MidnightReset(s: State, today: Day): (t: State)
    ensures t.lastReset == Some(today)
    ensures s.lastReset == Some(today) ==> t == s
    ensures |t.cats| == |s.cats| && t.currentCatIndex == s.currentCatIndex && t.history == s.history
    ensures forall i :: 0 <= i < |s.cats| ==>
              t.cats[i].name == s.cats[i].name && |t.cats[i].tasks| == |s.cats[i].tasks|
    ensures forall i, j :: 0 <= i < |s.cats| && 0 <= j < |s.cats[i].tasks| ==>
              t.cats[i].tasks[j].name == s.cats[i].tasks[j].name
    ensures s.lastReset != Some(today) ==> t.cats == ClearAllCats(s.cats)
    ensures s.lastReset != Some(today) ==>
              forall i, j :: 0 <= i < |t.cats| && 0 <= j < |t.cats[i].tasks| ==> !t.cats[i].tasks[j].completed
  {
    if s.lastReset != Some(today) then s.(cats := ClearAllCats(s.cats), lastReset := Some(today)) else s
  }

  // ---------------------------------------------------------------------------
  // Properties across calls

  /** From a valid index, "prev" undoes "next" and "next" undoes "prev". */
  lemma PrevUndoesNextState(s: State)
    requires IndexValid(s)
    ensures Prev(Next(s)) == s && Next(Prev(s)) == s
  {
  }

  /** `n` clicks on "next" only move the index, as `NextTimes` says. */
  lemma {:induction false} NextNMovesIndex(s: State, n: nat)
    ensures NextN(s, n) == s.(currentCatIndex := NextTimes(s.currentCatIndex, |s.cats|, n))
  {
    if n > 0 {
      NextNMovesIndex(s, n - 1);
    }
  }

  /** As many clicks on "next" as there are cats restore the state. */
  lemma NextCycleState(s: State)
    requires IndexValid(s)
    ensures NextN(s, |s.cats|) == s
  {
    NextNMovesIndex(s, |s.cats|);
    if |s.cats| > 0 {
      NextCycle(s.currentCatIndex, |s.cats|);
    }
  }

  /** A second day-rollover check on the same day changes nothing. */
  lemma MidnightResetIdempotent(s: State, today: Day)
    ensures MidnightReset(MidnightReset(s, today), today) == MidnightReset(s, today)
  {
  }

  /** After a rollover, and after a manual reset, no cat shows the completion
      message. */
  lemma ResetHidesCompletion(s: State, today: Day)
    ensures s.lastReset != Some(today) ==>
              CompletionShown(MidnightReset(s, today).cats, s.currentCatIndex) != Some(true)
    ensures CompletionShown(ResetDay(s).cats, s.currentCatIndex) != Some(true)
  {
  }

  /** After a toggle, the history holds exactly one entry for today and the
      active cat (given at most one per key before), and `find` returns the
      cat's completed and total counts after the toggle. */
  lemma ToggleRecordsCounts(s: State, index: int, completed: bool, today: Day, cutoff: Day)
    requires ToggleAllowed(s, index) && ActiveCat(s.cats, s.currentCatIndex).Some?
    requires cutoff <= today
    ensures var t := Toggle(s, index, completed, today, cutoff);
            var cat := t.cats[s.currentCatIndex];
            Lookup(t.history, today, cat.name)
              == Some(Entry(today, cat.name, CountCompleted(cat.tasks), |cat.tasks|))
    ensures UniqueKeys(s.history) ==> UniqueKeys(Toggle(s, index, completed, today, cutoff).history)
  {
    var cat := s.cats[s.currentCatIndex];
    var tasks := SetTaskCompleted(cat.tasks, index, completed);
    RecordedEntry(s.history, today, cat.name, CountCompleted(tasks), |tasks|, cutoff);
    if UniqueKeys(s.history) {
      RecordKeepsUniqueKeys(s.history, today, cat.name, CountCompleted(tasks), |tasks|, cutoff);
    }
  }

  /** Two toggles on the same day leave one history entry for the cat, with the
      counts of the second. */
  lemma ToggleTwiceKeepsLatest(s: State, i1: int, v1: bool, i2: int, v2: bool, today: Day, cutoff: Day)
    requires ToggleAllowed(s, i1) && ActiveCat(s.cats, s.currentCatIndex).Some?
    requires cutoff <= today
    ensures ToggleAllowed(Toggle(s, i1, v1, today, cutoff), i2) == ToggleAllowed(s, i2)
    ensures ToggleAllowed(s, i2) ==>
              var t := Toggle(s, i1, v1, today, cutoff);
              Toggle(t, i2, v2, today, cutoff).history
                == Record(s.history, today, s.cats[s.currentCatIndex].name,
                          CountCompleted(Toggle(t, i2, v2, today, cutoff).cats[s.currentCatIndex].tasks),
                          |s.cats[s.currentCatIndex].tasks|, cutoff)
  {
    var t := Toggle(s, i1, v1, today, cutoff);
    var name := s.cats[s.currentCatIndex].name;
    var n := |s.cats[s.currentCatIndex].tasks|;
    if ToggleAllowed(s, i2) {
      var u := Toggle(t, i2, v2, today, cutoff);
      RecordTwice(s.history, today, name,
                  CountCompleted(t.cats[s.currentCatIndex].tasks), n,
                  CountCompleted(u.cats[s.currentCatIndex].tasks), n, cutoff);
    }
  }

  /** An example: cats Bella and Luna, Bella with tasks Feed and Water;
      checking Feed records one of two tasks done for Bella today. */
  lemma BellaExample(today: Day, cutoff: Day)
    requires cutoff <= today
    ensures var bella := Cat("Bella", "", 3.0, [Task("Feed", false), Task("Water", false)]);
            var luna := Cat("Luna", "", 2.0, [Task("Feed", false)]);
            var t := Toggle(State([bella, luna], 0, Some(today), []), 0, true, today, cutoff);
            t.history == [Entry(today, "Bella", 1, 2)]
  {
    var bella := Cat("Bella", "", 3.0, [Task("Feed", false), Task("Water", false)]);
    var tasks := SetTaskCompleted(bella.tasks, 0, true);
    assert tasks == [Task("Feed", true), Task("Water", false)];
    assert CountCompleted(tasks) == 1 by {
      assert tasks[1..] == [Task("Water", false)];
      assert tasks[1..][1..] == [];
    }
    var e := Entry(today, "Bella", 1, 2);
    assert Upsert([], today, "Bella", 1, 2) == [e];
    assert Prune([e], cutoff) == [e] by {
      assert [e][1..] == [];
    }
  }
}
