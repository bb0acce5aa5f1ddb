# Pawfect Day checklist — a Dafny model

This project models the state machine behind the daily pet-care checklist of
the Pawfect Day web page (`project/main.js`). The page keeps a list of cats.
Each cat has a name, a birthday, an age and a list of tasks, and each task has
a name and a completed flag. An index says which cat is the active one. Two
more things are stored: the day of the last reset, and a history of daily
summaries `{date, catName, completed, total}`.

The model covers the handlers that read or change that state:

- looking up the active cat;
- moving to the previous or next cat, cyclically;
- adding a cat;
- checking or unchecking one task of the active cat, which also writes the
  day's summary to the history;
- the "all tasks done" message;
- the manual reset of the active cat;
- the reset of every cat when the day changes;
- writing a history summary: update or insert, then prune old entries.

Files:

- `wrappers.dfy`: the `Option` type, used where the page returns `null` or
  reads a missing storage key.
- `pets.dfy` (module `Pets`): the `Task` and `Cat` values, the active-cat
  lookup and the navigation arithmetic. JavaScript's `%` truncates toward
  zero, and the model writes it out as `JsRem`. The module also holds the
  task-level operations: set one flag, clear all flags, count the completed
  tasks, and the completion predicate.
- `history.dfy` (module `History`): history entries, with `find` modelled as
  `FindEntry`, update-or-insert as `Upsert`, the retention filter as `Prune`
  and the whole ledger step of `saveToHistory` as `Record`. It also holds the
  lemmas about these functions: one entry per key, the latest counts win, and
  the filter keeps the original order.
- `transitions.dfy` (module `Transitions`): the whole state as one value
  (`State`) and one function per handler. The lemmas here relate several
  calls: prev undoes next, as many clicks on next as there are cats change
  nothing, a second rollover check on the same day is a no-op, and toggling
  records the post-toggle counts.
- `pawfect.dfy` (module `Pawfect`): class `App` holds the page's module-level
  variables as fields. Its methods change those fields in place, as the page
  does, with the `forEach` loops written as `while` loops. Each method is
  proved to move `Model()` exactly as the matching `Transitions` function
  says. A client method, `Session`, walks through a start-up, adds two cats, toggles a
  task and switches cats.

Days are abstract integers: `Day` stands for the string `Date.toDateString()`
produces. The current day and the retention cutoff are parameters, not clock
reads. The cutoff is the first day kept. The page keeps an entry when the
local midnight of its date is at or after the moment one month before now.
So the day exactly one month back is dropped at any time after midnight. A
caller of the model gets that behaviour by passing the day after as `cutoff`.

Behaviour of the page that the model keeps on purpose:

- With a negative stored index, `loadCurrentCat` returns `cats[-1]`, which is
  `undefined`, not `null`. Every caller treats the two alike, so `ActiveCat`
  returns `None` there.
- The navigation handlers use the truncating `%`. From a negative stored
  index they can therefore leave the index negative, and `JsRem` keeps that
  behaviour. All in-range properties are stated for an index in range,
  which every handler preserves (`IndexValid`).
- History entries are keyed by cat name. Two cats with the same name share
  one daily entry, and the model keeps that behaviour.

## Model

| member | source | states |
|---|---|---|
| `Pets.ActiveCat` | project/main.js:70-75 | A cat is returned exactly when the list is non-empty and the index is in range, and it is the cat at that index. |
| `Pets.JsRem` | project/main.js:167 | JavaScript's remainder: it lies in `[0, n)` for a non-negative dividend, in `(-n, 0]` for a negative one, and equals the dividend when that is already smaller than `n` in magnitude. It differs from the dividend by a whole multiple of `n`, so it is the truncating remainder. |
| `Pets.NextIndex` | project/main.js:165-172 | With at most one cat the index is unchanged. Otherwise, from an index in range, it moves one forward and wraps from the last cat to the first. |
| `Pets.PrevIndex` | project/main.js:156-163 | With at most one cat the index is unchanged. Otherwise, from an index in range, it moves one back and wraps from the first cat to the last. |
| `Pets.PrevUndoesNext` | project/main.js:156-172 | From an index in range, next and prev stay in range, and each undoes the other. |
| `Pets.NextTimesIsRotation` | project/main.js:165-172 | `k` clicks on next (k up to the number of cats, more than one cat) rotate the index forward by `k`, wrapping past the end. |
| `Pets.NextTimesFixed` | project/main.js:166 | With at most one cat, any number of clicks leaves the index where it was. |
| `Pets.NextCycle` | project/main.js:165-172 | As many clicks on next as there are cats return an in-range index to itself. |
| `Pets.NewCat` | project/main.js:291-296 | The new cat keeps the form's name, birthday and age, and has one task per checked option, in order, none of them completed. |
| `Pets.CountCompleted` | project/main.js:342 | The completed count never exceeds the task count, and equals it exactly when every task is completed. |
| `Pets.CountCompletedAppend` | project/main.js:342 | The completed count of two lists joined is the sum of their counts, so each completed task adds exactly one. |
| `Pets.SetTaskCompleted` | project/main.js:235 | Only the task at the index takes the new flag. Its name and all other tasks are unchanged. |
| `Pets.ClearTasks` | project/main.js:259 | Same length and same names, and no task completed. |
| `Pets.ClearCat` | project/main.js:259 | Name, birthday, age and task count are kept. Each task keeps its name and becomes not completed, so the completed count becomes zero. |
| `Pets.NoneCompletedCountsZero` | project/main.js:342 | A task list with no completed task has a completed count of zero. |
| `Pets.ClearAllCats` | project/main.js:88-90 | Same number of cats, and each one is that cat with its tasks cleared. |
| `Pets.ClearCatIdempotent` | project/main.js:259 | Clearing a cat's tasks twice gives the same cat as clearing once. |
| `Pets.CompletionShown` | project/main.js:241-253 | With no active cat the message is left alone. Otherwise it is shown iff the cat has at least one task and its completed count equals its task count. |
| `History.FindEntry` | project/main.js:340 | The result is the position of the first entry with the (day, cat name) key, and nothing iff no entry has that key. |
| `History.FindEntryIsFirst` | project/main.js:340 | A matching entry with no earlier match is the one `find` returns. |
| `History.FindEntryCons` | project/main.js:340 | `find` on a list with one more entry in front: position 0 if that entry matches, otherwise the tail's answer shifted by one. |
| `History.Upsert` | project/main.js:340-355 | Afterwards `find` returns an entry with the given counts. The length grows by one only when the key was absent, and entries with other keys keep their positions and values. |
| `History.UpsertCons` | project/main.js:345-355 | Writing into a list with one entry in front updates that entry if it has the key, and otherwise writes into the tail. |
| `History.UpsertTwice` | project/main.js:345-354 | Writing the same key twice equals writing only the second counts. |
| `History.UpsertKeepsUniqueKeys` | project/main.js:340-355 | With at most one entry per key before, there is at most one after. |
| `History.Prune` | project/main.js:357-360 | An entry is kept iff it is in the input and dated on or after the cutoff, and the result is never longer than the input. |
| `History.PruneAppend` | project/main.js:360 | Filtering a concatenation is the concatenation of the filtered parts, so relative order is kept. |
| `History.PruneKeepsRecent` | project/main.js:360 | A ledger with nothing older than the cutoff is returned unchanged. |
| `History.PruneIdempotent` | project/main.js:360 | Filtering twice with the same cutoff is filtering once. |
| `History.PruneKeepsUniqueKeys` | project/main.js:360 | Filtering keeps at most one entry per key. |
| `History.PruneKeepsLookup` | project/main.js:340-360 | For a key dated on or after the cutoff, filtering changes neither whether `find` succeeds nor what it returns. |
| `History.PruneUpsert` | project/main.js:340-360 | Filtering after writing a key dated on or after the cutoff equals writing into the filtered ledger. |
| `History.Record` | project/main.js:340-360 | After the upsert and the filter, every entry is dated on or after the cutoff, every entry with another key was already there, and every entry with another key dated on or after the cutoff is still there. |
| `History.RecordedEntry` | project/main.js:340-360 | When today is not before the cutoff, `find` afterwards returns today's entry for the cat with exactly the given counts. |
| `History.RecordKeepsUniqueKeys` | project/main.js:340-360 | At most one entry per (day, cat name) before implies at most one after. |
| `History.RecordTwice` | project/main.js:340-360 | Recording the same key twice on one day equals recording only the latest counts. |
| `Transitions.Next` | project/main.js:165-172 | Only the index changes. With at most one cat nothing changes, and a valid index stays valid. |
| `Transitions.Prev` | project/main.js:156-163 | Only the index changes. With at most one cat nothing changes, and a valid index stays valid. |
| `Transitions.AddCat` | project/main.js:291-303 | Exactly one cat is appended and earlier cats are unchanged. The new cat has the form's name, birthday and age. Its tasks are the chosen names, none completed. The index becomes 0 iff the list was empty, and a valid index stays valid. |
| `Transitions.SaveHistory` | project/main.js:333-361 | Only the history changes, and with no active cat nothing changes. Every entry afterwards was there before or is dated today, and with an active cat every entry is dated on or after the cutoff. |
| `Transitions.Toggle` | project/main.js:231-239 | With no active cat nothing changes. Otherwise only the chosen task of the active cat takes the new flag. Other cats, the index and the marker are unchanged, and a valid index stays valid. |
| `Transitions.ResetDay` | project/main.js:255-264 | With no active cat nothing changes. Otherwise the active cat's tasks are all cleared, and other cats, the index, the marker and the history are unchanged. |
| `Transitions.MidnightReset` | project/main.js:83-93 | The marker becomes today. If it already was today nothing changes. Otherwise every cat keeps its profile and every task keeps its name and becomes incomplete. Cat count, cat names, task counts, task names, index and history are kept either way. |
| `Transitions.PrevUndoesNextState` | project/main.js:156-172 | From a valid index, prev after next and next after prev restore the state. |
| `Transitions.NextNMovesIndex` | project/main.js:165-172 | `n` clicks on next change only the index, which moves as `NextTimes` says. |
| `Transitions.NextCycleState` | project/main.js:165-172 | From a valid index, as many clicks on next as there are cats restore the state. |
| `Transitions.MidnightResetIdempotent` | project/main.js:84-93 | A second rollover check on the same day changes nothing. |
| `Transitions.ResetHidesCompletion` | project/main.js:241-264 | A manual reset always hides the completion message for the active cat. A rollover check hides it whenever it resets, that is, when the stored day is not today. |
| `Transitions.ToggleRecordsCounts` | project/main.js:231-237 | After a toggle, `find` returns today's entry for the active cat with its post-toggle completed and total counts, and one entry per key is kept. |
| `Transitions.ToggleTwiceKeepsLatest` | project/main.js:340-355 | Two toggles on one day leave the history as if only the second summary had been recorded. |
| `Transitions.BellaExample` | project/main.js:231-237 | Bella has tasks Feed and Water. Checking Feed on an empty history records exactly `{today, Bella, 1, 2}`. |
| `Pawfect.App.constructor` | project/main.js:19-20 | An empty store starts with no cats, index 0, no marker and no history. |
| `Pawfect.App.NextCat` | project/main.js:165-172 | The fields change exactly as `Transitions.Next` says. |
| `Pawfect.App.PrevCat` | project/main.js:156-163 | The fields change exactly as `Transitions.Prev` says. |
| `Pawfect.App.AddCat` | project/main.js:291-303 | The fields change exactly as `Transitions.AddCat` says. |
| `Pawfect.App.ToggleTask` | project/main.js:231-239 | The fields change exactly as `Transitions.Toggle` says. |
| `Pawfect.App.SaveToHistory` | project/main.js:333-361 | The entry is overwritten in place or appended, then filtered, exactly as `Transitions.SaveHistory` says. |
| `Pawfect.App.ClearTasksOf` | project/main.js:259 | The cat at the index becomes that cat with its tasks cleared, one task per loop step, and nothing else changes. |
| `Pawfect.App.ResetDay` | project/main.js:255-264 | The fields change exactly as `Transitions.ResetDay` says. |
| `Pawfect.App.CheckMidnightReset` | project/main.js:83-93 | The nested loops over cats and tasks leave the fields exactly as `Transitions.MidnightReset` says. |

## Left out

- Rendering and event wiring are not modelled: `renderChecklist`, `updateCatSwitcher`, `renderCatsList`, `renderHistory`, `navigateToPage`, `closeMenu`, the menu and chat listeners, and the loading screen. They only draw the state.
- `localStorage` and `JSON.stringify`/`JSON.parse` are left out. The stored records are the fields of `App`, and every write-through is assumed to succeed.
- `loadCats` is left out: its `parseInt` of the stored index, including a `NaN` index, is a foreign parse of stored text. The model's index is any integer.
- `Date` handling is left out: `toDateString`, parsing `entry.date`, and `setMonth` for the one-month cutoff. These become the `Day` integers and the `today` and `cutoff` parameters.
- The midnight timer and its millisecond delay (`setTimeout`, lines 95-102) are left out. It is scheduling, not state. The model keeps the check it re-runs.
- The `confirm()` dialog in `resetDay` is not modelled. Only the confirmed branch is.
- Reading the setup form is left out, including `parseFloat` of the age and its possible `NaN`. `AddCat` receives the values.
- The unused age computation in `renderCatsList` is left out.
- The percentage shown in the history view is left out. It is floating-point division and is `NaN` when `total` is 0.
- Themes and the canned chat answers are left out. They are cosmetic and fixed text.
- Cats are values inside a sequence, not shared objects. The page mutates the object `loadCurrentCat` returns, and only that one reference exists, so no aliasing is lost.
- `toggleTask` with an index outside the active cat's task list throws in the page. The checklist only renders valid indices, so `ToggleAllowed` requires one.
