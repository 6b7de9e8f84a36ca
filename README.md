# Cue sequencing and decorator helpers of Linux Show Player, in Dafny

This project models two small sequential pieces of a live-show control player.

- **The list layout's cue policy** (`layout.dfy`, module `Layout`). Class `ListLayout` holds:
  - the ordered cue list;
  - an array of the list items' `selected` flags;
  - the current row, where -1 means there is no current item;
  - the auto-continue flag, the end-of-list behaviour and the row of the context-menu item;
  - a log of the commands sent to cues.

  The modelled operations are:
  - moving the current row (`set_current_index`);
  - `go`, and auto-advance when a cue finishes (`__cue_next`);
  - stop, pause and restart of all cues, and start, pause and stop of the current cue;
  - the selection operations.

  A cue's commands (`execute`, `start`, `stop`, `pause`) and the `cue_executed` signal are only appended to the log. What they do is the business of the cue classes, which are not part of this model.
- **The decorator helpers** (`decorators.dfy`, module `Decorators`):
  - the `memoize` cache, as class `Memoizer` with its get-or-compute `Call`, and pure functions `MemoCall`/`MemoRun` that specify it;
  - the `typechecked` argument walk, as method `TypeChecked` proved against function `Check`;
  - lock-name generation for `synchronized_method`;
  - the lazy per-object lock registry, as `LockOwner.GetOrCreateLock`, specified by `RegisterLock`.

`wrappers.dfy` holds the `Option` type used for Python's `None`.

Assumptions the model makes explicit:
- `current_cue()` is the cue on the current row, or none when the current row is -1. It is defined in the base layout class, which is not part of this model.
- A new `ListLayout` starts with every `selected` flag false and no current row. The list items and the list view set these, and they are not part of this model.
- `len(model_adapter)` equals `topLevelItemCount()`. There is one length, `|cues|`, which is also `selected.Length`.
- A cue's `index` is its row. `next_cue == current_cue()` is therefore a comparison of rows.
- `isinstance(cue, C)` is modelled as `C in cue.classes`. `Valid()` requires every cue to be an instance of the base class `Cue`.
- The members of `CueState` and `CueAction` come from `lisp/cues/cue.py`, which is not part of this model. The model assumes they are Error/Stop/Running/Pause and Default/Start/Stop/Pause.
- Under Restart, `set_current_index` on an empty list divides by zero in Python. This is modelled as an error result (`raised`), not as a precondition. No state changes on that path. `go` and `__cue_next` never reach it.
- `__cue_next` receives the finishing cue's `index`, a `nat`. With the successor lookup guarded by the list length, the no-successor case is an ordinary no-op in the model.
- In `memoize`, `key` stands for `str(args) + str(kwargs)` and `body` for the wrapped callable. Both are supplied functions.
- In `typechecked`, `annotations` maps a parameter name either to `TypeAnnotation(t)` (an annotation that is a type) or to `OtherAnnotation`. `isInstance` is a supplied relation.
- In the lock registry, `attributes` maps names to `RLock?`. `null` is an attribute set to `None`. It is treated like a missing attribute, as `getattr(self, name, None)` does.

## Model

| member | source | states |
|---|---|---|
| Layout.ParseEndList | lisp/layouts/list_layout/layout.py:89-92 | only the exact string "Restart" selects Restart; every other configuration value, including unknown ones, gives Stop |
| Layout.EndListValue | lisp/layouts/list_layout/layout.py:50-52 | parsing an enum member's value gives that member back |
| Layout.Retarget | lisp/layouts/list_layout/layout.py:213-219 | the new current row is the old one or a row inside the list; a valid current row stays valid; under Restart the result is always inside the list |
| Layout.StopMovesOnlyInRange | lisp/layouts/list_layout/layout.py:217-219 | under Stop a target in [0, n) becomes the current row and any other target leaves it unchanged (no clamping, no wrap) |
| Layout.RestartWraps | lisp/layouts/list_layout/layout.py:214-215 | under Restart with n > 0 the current row becomes index mod n; a target in [-n, 0) wraps to index + n and one in [n, 2n) to index - n |
| Layout.ThreeCueExample | lisp/layouts/list_layout/layout.py:213-219 | with three cues and current row 2, target 5 is ignored under Stop and lands on 2 under Restart; -1 wraps to 2 |
| Layout.ListLayout.constructor | lisp/layouts/list_layout/layout.py:77-92 | the end-list behaviour is the parsed configuration value and auto-continue the configured flag; there is no context item; the initial flags and current row are the assumption stated above (nothing selected, no current row); empty log |
| Layout.ListLayout.CurrentCue | lisp/layouts/list_layout/layout.py:210-211 | there is a current cue exactly when the current row is not -1, and it is the cue on that row |
| Layout.ListLayout.SetCurrentIndex | lisp/layouts/list_layout/layout.py:213-219 | the current row becomes Retarget of the target; ZeroDivisionError exactly under Restart on an empty list; nothing else changes |
| Layout.ListLayout.Go | lisp/layouts/list_layout/layout.py:221-228 | with no current cue nothing is logged and the row is unchanged; otherwise the current cue is executed once with the action and announced; the row moves only with auto-continue, exactly as set_current_index(current + advance) |
| Layout.GoOnLastCueUnderStop | lisp/layouts/list_layout/layout.py:227-228 | under Stop, go on the last cue with advance 1 leaves the current row on that cue |
| Layout.ListLayout.CueNext | lisp/layouts/list_layout/layout.py:399-409 | the successor is executed with the default action exactly when it exists; the row moves to set_current_index(i + 2) only when auto-continue holds and the successor is the current cue, and is unchanged otherwise |
| Layout.ListLayout.StartCurrent | lisp/layouts/list_layout/layout.py:288-291 | with a current cue the log gains one start for its row; with none nothing is logged; the rest of the state is unchanged |
| Layout.ListLayout.PauseCurrent | lisp/layouts/list_layout/layout.py:293-296 | with a current cue the log gains one pause for its row; with none nothing is logged; the rest of the state is unchanged |
| Layout.ListLayout.StopCurrent | lisp/layouts/list_layout/layout.py:298-301 | with a current cue the log gains one stop for its row; with none nothing is logged; the rest of the state is unchanged |
| Layout.ListLayout.SetAutoNext | lisp/layouts/list_layout/layout.py:241-242 | sets auto-continue and changes nothing else |
| Layout.ForEveryCue | lisp/layouts/list_layout/layout.py:323-329 | one command per cue, the k-th for row k |
| Layout.ListLayout.StopAll | lisp/layouts/list_layout/layout.py:323-325 | the log gains a stop for every cue in list order; the rest of the state is unchanged |
| Layout.ListLayout.PauseAll | lisp/layouts/list_layout/layout.py:327-329 | the log gains a pause for every cue in list order; the rest of the state is unchanged |
| Layout.RestartCommands | lisp/layouts/list_layout/layout.py:331-334 | only starts are issued, each to a paused cue, in strictly increasing row order, and every paused cue gets one |
| Layout.RestartStartsExactlyPaused | lisp/layouts/list_layout/layout.py:331-334 | a cue is started by restart_all if and only if its state is Pause |
| Layout.ListLayout.RestartAll | lisp/layouts/list_layout/layout.py:331-334 | the log gains exactly RestartCommands of the cue list; the rest of the state is unchanged |
| Layout.Marked | lisp/layouts/list_layout/layout.py:364-372 | every row holding a cue of the class gets the given flag; every other row keeps its flag |
| Layout.MarkLastWins | lisp/layouts/list_layout/layout.py:364-372 | select_all/deselect_all for one class: the later call decides, so repeating a call is idempotent |
| Layout.MarkBaseClassMarksAll | lisp/layouts/list_layout/layout.py:364-367 | with the default class every row is set |
| Layout.ListLayout.SetSelection | lisp/layouts/list_layout/layout.py:364-372 | rows holding a cue of the class get the flag; all other rows keep theirs |
| Layout.ListLayout.SelectAll | lisp/layouts/list_layout/layout.py:364-367 | the flags become Marked(old flags, class, true) |
| Layout.ListLayout.DeselectAll | lisp/layouts/list_layout/layout.py:369-372 | the flags become Marked(old flags, class, false) |
| Layout.Inverted | lisp/layouts/list_layout/layout.py:374-377 | every row's flag is the opposite of what it was |
| Layout.InvertTwiceIsIdentity | lisp/layouts/list_layout/layout.py:374-377 | inverting the selection twice gives the original flags |
| Layout.ListLayout.InvertSelection | lisp/layouts/list_layout/layout.py:374-377 | every flag is flipped, whatever the cue's class |
| Layout.ListLayout.ContextEvent | lisp/layouts/list_layout/layout.py:308-311 | the context item is the row under the pointer, or none outside the list |
| Layout.ListLayout.SelectContextCue | lisp/layouts/list_layout/layout.py:234-235 | the context item's flag is flipped and no other flag changes; with no context item (None) an AttributeError is raised and nothing changes |
| Layout.SelectedRows | lisp/layouts/list_layout/layout.py:336-342 | the rows get_selected_cues keeps all lie inside the scanned part of the list |
| Layout.SelectedRowsExactly | lisp/layouts/list_layout/layout.py:336-342 | the kept rows are in strictly increasing order, and a row is kept exactly when it is selected and holds a cue of the class |
| Layout.ListLayout.GetSelectedCues | lisp/layouts/list_layout/layout.py:336-342 | the result lists, in list order, the cues on exactly the SelectedRows |
| Layout.SelectedAfterSelectAll | lisp/layouts/list_layout/layout.py:364-367 | after select_all(C), a row is among the selected rows of class C exactly when it holds a cue of class C |
| Layout.NoneSelectedAfterDeselectAll | lisp/layouts/list_layout/layout.py:369-372 | after deselect_all(C), no cue of class C is selected |
| Decorators.MemoCall | lisp/core/decorators.py:179-183 | the returned value is the cache's entry for the key; a hit returns the stored value and leaves the cache as it was; a miss runs the body and adds just that key; no existing entry changes |
| Decorators.MemoRun | lisp/core/decorators.py:176-185 | a run of calls returns one value per call |
| Decorators.RunOnlyGrows | lisp/core/decorators.py:181-182 | over any run of calls, an entry once stored is never overwritten or removed |
| Decorators.RunKeys | lisp/core/decorators.py:180-182 | the final cache's keys are the initial keys plus the keys of the calls |
| Decorators.RunReturnsFinalEntry | lisp/core/decorators.py:181-183 | every call returns what the final cache holds for its key |
| Decorators.SameKeySameResult | lisp/core/decorators.py:180-183 | two calls whose arguments print identically return the same value |
| Decorators.FirstCallComputes | lisp/core/decorators.py:181-182 | the first call with an uncached key returns the body's result on its own arguments |
| Decorators.DistinctKeysComputeSeparately | lisp/core/decorators.py:180 | from an empty cache, two calls whose arguments print differently, such as (1,2) and (2,1), compute and store two entries |
| Decorators.EqualKeysShareEntry | lisp/core/decorators.py:180 | from an empty cache, two calls whose arguments print identically store one entry and both get the first call's result |
| Decorators.RunAppend | lisp/core/decorators.py:181-182 | extending a run by one call updates its cache exactly as one MemoCall does |
| Decorators.Memoizer.constructor | lisp/core/decorators.py:176 | the cache starts empty and the body has not run |
| Decorators.Memoizer.Call | lisp/core/decorators.py:179-183 | the cache and result are MemoCall's; the body is run, and recorded, only on a miss; the cache stays what the body's runs stored, at most one run per key |
| Decorators.CallTwice | lisp/core/decorators.py:179-183 | two calls with equal keys return the same value and run the body at most once between them |
| Decorators.SlotValue | lisp/core/decorators.py:203-208 | slot k takes the positional argument when k < len(args), else the keyword argument of its name, else nothing |
| Decorators.Mismatch | lisp/core/decorators.py:199-211 | a slot fails the check only when its name has an annotation that is a type, a value is supplied for it, and that value is not an instance of the annotation |
| Decorators.FirstMismatch | lisp/core/decorators.py:198-211 | the result is the least slot at or after the start with a type annotation that its supplied value is not an instance of, or none if no such slot exists |
| Decorators.Check | lisp/core/decorators.py:197-213 | the target is called, with args and kwargs unchanged, if and only if no annotated slot mismatches; otherwise the TypeError names the first mismatching slot |
| Decorators.TypeChecked | lisp/core/decorators.py:196-215 | the loop over co_varnames returns exactly Check's outcome, stopping at the first mismatch |
| Decorators.UnannotatedNeverFails | lisp/core/decorators.py:199-201 | when no slot has an annotation that is a type, the target is always called with the arguments unchanged |
| Decorators.IntParameterExample | lisp/core/decorators.py:203-211 | for fn(a: int), fn("x") and fn(a="x") raise a TypeError for "a" and fn(1) calls the target |
| Decorators.GeneratedLockName | lisp/core/decorators.py:119-121 | the generated name is "__", the method name, then "_lock__" |
| Decorators.GeneratedLockNameInjective | lisp/core/decorators.py:119-121 | distinct method names generate distinct lock names |
| Decorators.LockName | lisp/core/decorators.py:119-121 | a string lock_name is used as given; any other value gives the generated name |
| Decorators.LookupLock | lisp/core/decorators.py:126 | getattr with default None finds a lock exactly when the attribute exists and is not None |
| Decorators.RegisterLock | lisp/core/decorators.py:125-131 | after get-or-create the name resolves to the existing lock if there was one, else to the created one; an existing lock leaves the attributes unchanged; no other attribute changes |
| Decorators.RegisterIdempotent | lisp/core/decorators.py:125-131 | a second get-or-create of the same name changes nothing and resolves to the same lock |
| Decorators.SameNameSameLock | lisp/core/decorators.py:119-131 | two methods whose lock names agree on one object share one lock |
| Decorators.DistinctMethodsDistinctLocks | lisp/core/decorators.py:119-131 | two differently named methods without explicit lock names, each creating its lock, get distinct locks |
| Decorators.LockOwner.GetOrCreateLock | lisp/core/decorators.py:125-131 | returns the stored lock when there is one; otherwise creates a fresh lock and stores it under the name; the attributes become RegisterLock's |
| Decorators.MethodLock | lisp/core/decorators.py:119-131 | the lock a synchronized method resolves is the one registered under LockName(lock_name, method name), created fresh only when none was stored |

## Left out

- Acquiring and releasing locks, blocking and timeouts, re-entrancy and the meta-lock's mutual exclusion (`synchronized_function`, and the body of `synchronized_method`'s wrapper after lock lookup): these are threading primitives. The registry is modelled without concurrency.
- `async` and `async_in_pool`: they run the callable on detached threads or a thread pool.
- `suppress_exceptions`: it swallows every `Exception` the callable raises, logs it as a warning with its traceback and returns `None` in place of a result. The `log` flag is never read, so it logs whatever `log` says. Error suppression and logging are outside this model, which has no exceptions in its callables. Its keyword form also passes a `print_exc` argument that the function does not accept.
- Qt widget and menu construction, translation, `finalize`, and the visibility and timing toggles of the layout: GUI glue.
- Key-event translation in `onKeyPressEvent`: it depends on Qt key codes, modifier encodings and application state that are not in the model.
- `double_clicked`, `edit_context_cue`, `remove_context_cue` and `__current_changed`: they hand off to the cue editing dialog, the cue model's removal or the info panel, none of which is part of this model.
- Real cue behaviour: `Cue.execute`, media interruption in `__cue_removed`, state transitions and signal connection in `__cue_added`. Cue commands are only logged, and cue states never change in the model.
- Adding and removing cues: the cue list is fixed for the lifetime of a `ListLayout`.
- Decorators.Memoizer.Call: the wrapped callable is a pure function `body`. A Python callable with side effects, or one that gives different results over time, is not modelled. Neither is a callable that raises: in Python nothing is stored, the exception propagates, and the next call with the same key runs the body again, so "at most one run per key" counts successful runs only. `str()` formatting of arguments is abstracted as `key`.
- Decorators.TypeChecked: `co_varnames` is a given sequence of names. Python's rules for where `*args`, keyword-only parameters and locals appear in it are not modelled, and neither is the call of the target itself (only that it happens, with which arguments).
- Layout.ListLayout.CueNext: the finishing cue is identified by its row, a `nat`. A `cue.index` that is not the cue's row is outside the model. With -1 the source executes the cue on row 0; with a stale index inside the list it executes the wrong successor. Whether lower indices raise depends on the cue model's `get`, which is not part of this model.
