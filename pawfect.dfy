/** The checklist controller: the application's module-level mutable state
    and the handlers that change it in place. Each method is proved to move
    the state exactly as the matching function of `Transitions` says. */
module Pawfect {
  import opened Wrappers
  import opened Pets
  import opened History
  import Transitions

  class App {
    /** `cats`, `currentCatIndex`, the stored last-reset day and the stored history. */
    var cats: seq<Cat>
    var currentCatIndex: int
    var lastReset: Option<Day>
    var history: seq<Entry>

    /** The fields as one value. */
    function Model(): Transitions.State
      reads this
    {
      Transitions.State(cats, currentCatIndex, lastReset, history)
    }

    /** First start on an empty store. */
    constructor ()
      ensures Model() == Transitions.Initial
    {
      cats, currentCatIndex, lastReset, history := [], 0, None, [];
    }

    /** The `nextCat` click handler. */
    method NextCat()
      modifies this
      ensures Model() == Transitions.Next(old(Model()))
    {
      if |cats| > 1 {
        currentCatIndex := JsRem(currentCatIndex + 1, |cats|);
      }
    }

    /** The `prevCat` click handler. */
    method PrevCat()
      modifies this
      ensures Model() == Transitions.Prev(old(Model()))
    {
      if |cats| > 1 {
        currentCatIndex := JsRem(currentCatIndex - 1 + |cats|, |cats|);
      }
    }

    /** `handlePetSetup` after the form has been read. */
    method AddCat(name: string, birthday: string, age: real, taskNames: seq<string>)
      modifies this
      ensures Model() == Transitions.AddCat(old(Model()), name, birthday, age, taskNames)
    {
      cats := cats + [NewCat(name, birthday, age, taskNames)];
      if |cats| == 1 {
        currentCatIndex := 0;
      }
    }

    /** `toggleTask`: set one task of the active cat, then save the history. */
    method ToggleTask(index: int, completed: bool, today: Day, cutoff: Day)
      requires Transitions.ToggleAllowed(Model(), index)
      modifies this
      ensures Model() == Transitions.Toggle(old(Model()), index, completed, today, cutoff)
    {
      var cat := ActiveCat(cats, currentCatIndex);
      if cat.None? {
        return;
      }
      var tasks := cat.value.tasks;
      cats := cats[currentCatIndex := cat.value.(tasks := tasks[index := tasks[index].(completed := completed)])];
      SaveToHistory(today, cutoff);
    }

    /** `saveToHistory`: overwrite today's entry for the active cat in place or
        append one, then keep only the entries dated on or after `cutoff`. */
    method SaveToHistory(today: Day, cutoff: Day)
      modifies this
      ensures Model() == Transitions.SaveHistory(old(Model()), today, cutoff)
    {
      var cat := ActiveCat(cats, currentCatIndex);
      if cat.None? {
        return;
      }
      var name := cat.value.name;
      var completed := CountCompleted(cat.value.tasks);
      var total := |cat.value.tasks|;
      match FindEntry(history, today, name) {
        case Some(i) =>
          history := history[i := history[i].(completed := completed, total := total)];
        case None =>
          history := history + [Entry(today, name, completed, total)];
      }
      history := Prune(history, cutoff);
    }

    /** Every task of the cat at `ci` set to not completed, one at a time. */
    method ClearTasksOf(ci: nat)
      requires ci < |cats|
      modifies this
      ensures cats == old(cats)[ci := ClearCat(old(cats)[ci])]
      ensures currentCatIndex == old(currentCatIndex) && lastReset == old(lastReset) && history == old(history)
    {
      ghost var cat := cats[ci];
      var i := 0;
      while i < |cats[ci].tasks|
        invariant |cats| == |old(cats)| && ci < |cats|
        invariant cats == old(cats)[ci := cats[ci]]
        invariant cats[ci] == cat.(tasks := cats[ci].tasks)
        invariant |cats[ci].tasks| == |cat.tasks| && 0 <= i <= |cat.tasks|
        invariant forall k :: 0 <= k < i ==> cats[ci].tasks[k] == cat.tasks[k].(completed := false)
        invariant forall k :: i <= k < |cat.tasks| ==> cats[ci].tasks[k] == cat.tasks[k]
        invariant currentCatIndex == old(currentCatIndex) && lastReset == old(lastReset) && history == old(history)
      {
        var tasks := cats[ci].tasks;
        cats := cats[ci := cats[ci].(tasks := tasks[i := tasks[i].(completed := false)])];
        i := i + 1;
      }
      assert cats[ci].tasks == ClearCat(cat).tasks;
    }

    /** The confirmed branch of `resetDay`. */
    method ResetDay()
      modifies this
      ensures Model() == Transitions.ResetDay(old(Model()))
    {
      var cat := ActiveCat(cats, currentCatIndex);
      if cat.Some? {
        ClearTasksOf(currentCatIndex);
      }
    }

    /** The reset branch of `checkMidnightReset`: clear every cat when the
        stored day is not `today`, then store `today`. */
    method CheckMidnightReset(today: Day)
      modifies this
      ensures Model() == Transitions.MidnightReset(old(Model()), today)
    {
      if lastReset != Some(today) {
        var ci := 0;
        while ci < |cats|
          invariant |cats| == |old(cats)| && 0 <= ci <= |cats|
          invariant forall k :: 0 <= k < ci ==> cats[k] == ClearCat(old(cats)[k])
          invariant forall k :: ci <= k < |cats| ==> cats[k] == old(cats)[k]
          invariant currentCatIndex == old(currentCatIndex) && lastReset == old(lastReset) && history == old(history)
        {
          ClearTasksOf(ci);
          ci := ci + 1;
        }
        assert cats == ClearAllCats(old(cats));
        lastReset := Some(today);
      }
    }
  }

  /** A session as the application runs it: start-up check, two cats added,
      a task toggled, a switch to the second cat and back. */
  method Session(today: Day, cutoff: Day)
    requires cutoff <= today
  {
    var app := new App();
    app.CheckMidnightReset(today);
    app.AddCat("Bella", "2020-01-01", 5.0, ["Feed", "Water"]);
    app.AddCat("Luna", "2021-03-04", 4.0, ["Feed"]);
    assert app.currentCatIndex == 0;
    ghost var before := app.Model();
    app.ToggleTask(0, true, today, cutoff);
    assert app.cats[0].tasks == [Task("Feed", true), Task("Water", false)];
    Transitions.ToggleRecordsCounts(before, 0, true, today, cutoff);
    assert CountCompleted(app.cats[0].tasks) == 1 by {
      assert app.cats[0].tasks[1..] == [Task("Water", false)];
      assert app.cats[0].tasks[1..][1..] == [];
    }
    assert Lookup(app.history, today, "Bella") == Some(Entry(today, "Bella", 1, 2));
    app.NextCat();
    assert app.currentCatIndex == 1;
    app.PrevCat();
    assert app.currentCatIndex == 0;
    app.CheckMidnightReset(today);
    assert app.cats[0].tasks[0].completed;
  }
}
