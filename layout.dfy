/**
 * The sequencing and selection policy of the list layout of a show-control
 * player: an ordered list of cues, a current row (-1 for none), the
 * auto-continue flag and the end-of-list behaviour.
 *
 * Commands sent to a cue (`execute`, `start`, `stop`, `pause`) and the
 * `cue_executed` signal are not interpreted: they are appended to a log.
 * The position of a cue in the list is its identity (a cue's `index` equals
 * its row), and the list has as many rows as the model adapter has cues.
 */
module Layout {
  import opened Wrappers

  /** What a row move past either end of the list does. */
  datatype EndListBehavior = Stop | Restart

  /** Playback state of a cue, as the cue reports it. */
  datatype CueState = Error | Stop | Running | Pause

  /** The action passed to `Cue.execute`. */
  datatype CueAction = Default | Start | Stop | Pause

  /**
   * A cue as the layout sees it: the names of the classes it is an instance
   * of (so `isinstance(cue, C)` is `C in classes`) and its state.
   */
  datatype Cue = Cue(classes: set<string>, state: CueState)

  /** The base class of every cue; the default class filter of the selection operations. */
  const BaseCue: string := "Cue"

  /** What the layout asks of a cue, or announces about it, by row. */
  datatype Command =
    | Execute(row: nat, action: CueAction)
    | Executed(row: nat)
    | StartCue(row: nat)
    | StopCue(row: nat)
    | PauseCue(row: nat)

  predicate IsInstance(cue: Cue, cueClass: string) {
    cueClass in cue.classes
  }

  // ---------------------------------------------------------------------------
  // Configuration

  /**
   * `EndListBehavior(config['ListLayout']['EndList'])`: lookup by value, with
   * a ValueError on any other string falling back to Stop.
   */
  function ParseEndList(value: string): (b: EndListBehavior)
    ensures b == EndListBehavior.Restart <==> value == "Restart"
    ensures b == EndListBehavior.Stop <==> value != "Restart"
  {
    if value == "Stop" then EndListBehavior.Stop
    else if value == "Restart" then EndListBehavior.Restart
    else EndListBehavior.Stop
  }

  /** The value of an `EndListBehavior` member; parsing it gives the member back. */
  function EndListValue(b: EndListBehavior): (value: string)
    ensures ParseEndList(value) == b
  {
    match b
    case Stop => "Stop"
    case Restart => "Restart"
  }

  // ---------------------------------------------------------------------------
  // Moving the current row

  /**
   * The current row after `set_current_index(index)` on a list of `n` rows
   * whose current row is `current`. Under Restart the target is first reduced
   * modulo `n` (Python's `%`, which for a positive divisor agrees with
   * Dafny's); a target outside the list is then ignored.
   */
  function Retarget(behavior: EndListBehavior, n: nat, current: int, index: int): (r: int)
    requires behavior == EndListBehavior.Restart ==> n > 0
    ensures -1 <= current < n ==> -1 <= r < n
    ensures r == current || 0 <= r < n
    ensures behavior == EndListBehavior.Restart ==> 0 <= r < n
  {
    var target := if behavior == EndListBehavior.Restart then index % n else index;
    if 0 <= target < n then target else current
  }

  /** Under Stop a target inside the list is taken as it is, anything else is ignored: no clamping. */
  lemma StopMovesOnlyInRange(n: nat, current: int, index: int)
    ensures 0 <= index < n ==> Retarget(EndListBehavior.Stop, n, current, index) == index
    ensures !(0 <= index < n) ==> Retarget(EndListBehavior.Stop, n, current, index) == current
  {
  }

  /** Under Restart every target lands on `index mod n`; a target just before the start wraps to the end. */
  lemma RestartWraps(n: nat, current: int, index: int)
    requires n > 0
    ensures Retarget(EndListBehavior.Restart, n, current, index) == index % n
    ensures index < 0 && index + n >= 0 ==> Retarget(EndListBehavior.Restart, n, current, index) == index + n
    ensures n <= index < 2 * n ==> Retarget(EndListBehavior.Restart, n, current, index) == index - n
  {
  }

  /** Three cues, current row 2, target 5: Stop ignores it, Restart goes to 5 % 3 = 2. */
  lemma ThreeCueExample()
    ensures Retarget(EndListBehavior.Stop, 3, 2, 5) == 2
    ensures Retarget(EndListBehavior.Restart, 3, 2, 5) == 2
    ensures Retarget(EndListBehavior.Restart, 3, 0, -1) == 2
    ensures Retarget(EndListBehavior.Stop, 3, 2, 3) == 2
  {
  }

  // ---------------------------------------------------------------------------
  // Selection, as functions of the `selected` flags

  /** `select_all`/`deselect_all`: set the flag to `v` on the rows whose cue is a `cueClass`. */
  function Marked(sel: seq<bool>, cues: seq<Cue>, cueClass: string, v: bool): (r: seq<bool>)
    requires |sel| == |cues|
    ensures |r| == |sel|
    ensures forall k :: 0 <= k < |r| && IsInstance(cues[k], cueClass) ==> r[k] == v
    ensures forall k :: 0 <= k < |r| && !IsInstance(cues[k], cueClass) ==> r[k] == sel[k]
  {
    seq(|sel|, k requires 0 <= k < |sel| => if IsInstance(cues[k], cueClass) then v else sel[k])
  }

  /** `invert_selection`: every flag flipped, whatever the cue's class. */
  function Inverted(sel: seq<bool>): (r: seq<bool>)
    ensures |r| == |sel|
    ensures forall k :: 0 <= k < |r| ==> r[k] != sel[k]
  {
    seq(|sel|, k requires 0 <= k < |sel| => !sel[k])
  }

  lemma InvertTwiceIsIdentity(sel: seq<bool>)
    ensures Inverted(Inverted(sel)) == sel
  {
  }

  /** Marking the same class twice: the second call decides, and repeating a call changes nothing. */
  lemma MarkLastWins(sel: seq<bool>, cues: seq<Cue>, cueClass: string, v: bool, w: bool)
    requires |sel| == |cues|
    ensures Marked(Marked(sel, cues, cueClass, v), cues, cueClass, w) == Marked(sel, cues, cueClass, w)
  {
  }

  /** With the base class every cue is affected: `select_all()` selects every row. */
  lemma MarkBaseClassMarksAll(sel: seq<bool>, cues: seq<Cue>, v: bool)
    requires |sel| == |cues|
    requires forall k :: 0 <= k < |cues| ==> IsInstance(cues[k], BaseCue)
    ensures forall k :: 0 <= k < |sel| ==> Marked(sel, cues, BaseCue, v)[k] == v
  {
  }

  /**
   * The rows below `upTo` that are selected and hold a `cueClass`, in
   * increasing order: the rows `get_selected_cues` visits and keeps.
   */
  function SelectedRows(sel: seq<bool>, cues: seq<Cue>, cueClass: string, upTo: nat): (rows: seq<nat>)
    requires |sel| == |cues| && upTo <= |sel|
    ensures forall j :: 0 <= j < |rows| ==> rows[j] < upTo
    decreases upTo
  {
    if upTo == 0 then []
    else
      var row := upTo - 1;
      SelectedRows(sel, cues, cueClass, row) + (if sel[row] && IsInstance(cues[row], cueClass) then [row] else [])
  }

  /**
   * `SelectedRows` lists, in strictly increasing order, exactly the rows
   * below `upTo` that are selected and hold a `cueClass`.
   */
  lemma {:induction false} SelectedRowsExactly(sel: seq<bool>, cues: seq<Cue>, cueClass: string, upTo: nat)
    requires |sel| == |cues| && upTo <= |sel|
    ensures var rows := SelectedRows(sel, cues, cueClass, upTo);
            && (forall j, j' :: 0 <= j < j' < |rows| ==> rows[j] < rows[j'])
            && (forall k :: 0 <= k < upTo ==> (k in rows <==> sel[k] && IsInstance(cues[k], cueClass)))
    decreases upTo
  {
    if upTo > 0 {
      var row := upTo - 1;
      SelectedRowsExactly(sel, cues, cueClass, row);
      var before := SelectedRows(sel, cues, cueClass, row);
      var rows := SelectedRows(sel, cues, cueClass, upTo);
      assert rows == before + (if sel[row] && IsInstance(cues[row], cueClass) then [row] else []);
      assert row !in before;
    }
  }

  /** After `select_all(C)` a row is among the selected rows of class C exactly when it holds a C. */
  lemma SelectedAfterSelectAll(sel: seq<bool>, cues: seq<Cue>, cueClass: string, upTo: nat)
    requires |sel| == |cues| && upTo <= |sel|
    ensures var rows := SelectedRows(Marked(sel, cues, cueClass, true), cues, cueClass, upTo);
            forall k :: 0 <= k < upTo ==> (k in rows <==> IsInstance(cues[k], cueClass))
  {
    SelectedRowsExactly(Marked(sel, cues, cueClass, true), cues, cueClass, upTo);
  }

  /** After `deselect_all(C)` no cue of class C is selected. */
  lemma {:induction false} NoneSelectedAfterDeselectAll(sel: seq<bool>, cues: seq<Cue>, cueClass: string, upTo: nat)
    requires |sel| == |cues| && upTo <= |sel|
    ensures SelectedRows(Marked(sel, cues, cueClass, false), cues, cueClass, upTo) == []
    decreases upTo
  {
    if upTo > 0 {
      var row := upTo - 1;
      NoneSelectedAfterDeselectAll(sel, cues, cueClass, row);
      var m := Marked(sel, cues, cueClass, false);
      assert !(m[row] && IsInstance(cues[row], cueClass));
      assert SelectedRows(m, cues, cueClass, upTo) == SelectedRows(m, cues, cueClass, row) + [];
    }
  }

  // ---------------------------------------------------------------------------
  // Bulk playback commands

  /** `restart_all` on the first `upTo` cues: a start for each paused cue, in list order. */
  function RestartCommands(cues: seq<Cue>, upTo: nat): (cmds: seq<Command>)
    requires upTo <= |cues|
    ensures forall j :: 0 <= j < |cmds| ==> cmds[j].StartCue? && cmds[j].row < upTo && cues[cmds[j].row].state == CueState.Pause
    ensures forall j, j' :: 0 <= j < j' < |cmds| ==> cmds[j].row < cmds[j'].row
    ensures forall k :: 0 <= k < upTo && cues[k].state == CueState.Pause ==> StartCue(k) in cmds
    decreases upTo
  {
    if upTo == 0 then []
    else
      var row := upTo - 1;
      RestartCommands(cues, row) + (if cues[row].state == CueState.Pause then [StartCue(row)] else [])
  }

  /** `restart_all` starts a cue exactly when it is paused. */
  lemma RestartStartsExactlyPaused(cues: seq<Cue>, k: nat)
    requires k < |cues|
    ensures StartCue(k) in RestartCommands(cues, |cues|) <==> cues[k].state == CueState.Pause
  {
    var cmds := RestartCommands(cues, |cues|);
    if StartCue(k) in cmds {
      var j :| 0 <= j < |cmds| && cmds[j] == StartCue(k);
    }
  }

  /** The command `make(k)` for every row `k`, in list order: `stop_all` and `pause_all`. */
  function ForEveryCue(n: nat, make: nat -> Command): (cmds: seq<Command>)
    ensures |cmds| == n
    ensures forall k :: 0 <= k < n ==> cmds[k] == make(k)
  {
    seq(n, k requires 0 <= k < n => make(k))
  }

  function StopCommand(k: nat): Command { StopCue(k) }
  function PauseCommand(k: nat): Command { PauseCue(k) }

  // ---------------------------------------------------------------------------
  // The layout

  class ListLayout {
    /** The cues of the model adapter, in list order. */
    const cues: seq<Cue>
    /** `item.selected` of the list item on each row. */
    const selected: array<bool>
    /** The end-of-list behaviour read from the configuration. */
    const endList: EndListBehavior
    /** The row of the list view's current item; -1 when there is none. */
    var current: int
    var autoContinue: bool
    /** The row of the item under the last context-menu event; -1 for None. */
    var contextItem: int
    /** Commands sent to cues and signals emitted, oldest first. */
    var log: seq<Command>

    ghost predicate Valid()
      reads this
    {
      && selected.Length == |cues|
      && -1 <= current < |cues|
      && -1 <= contextItem < |cues|
      && forall k :: 0 <= k < |cues| ==> IsInstance(cues[k], BaseCue)
    }

    /**
     * The layout's configuration: auto-continue and the parsed end-list
     * behaviour, with no context item. All flags false and no current row
     * are the model's choice: the list items and the list view set these.
     */
    constructor (cues: seq<Cue>, endListConfig: string, autoContinue: bool)
      requires forall k :: 0 <= k < |cues| ==> IsInstance(cues[k], BaseCue)
      ensures Valid() && fresh(selected)
      ensures this.cues == cues && this.autoContinue == autoContinue
      ensures endList == ParseEndList(endListConfig)
      ensures current == -1 && contextItem == -1 && log == []
      ensures forall k :: 0 <= k < selected.Length ==> !selected[k]
    {
      this.cues := cues;
      this.selected := new bool[|cues|](_ => false);
      this.endList := ParseEndList(endListConfig);
      this.autoContinue := autoContinue;
      this.current := -1;
      this.contextItem := -1;
      this.log := [];
    }

    /** `current_cue()`: the cue on the current row, or none when there is no current row. */
    function CurrentCue(): (c: Option<Cue>)
      reads this
      requires Valid()
      ensures c.Some? <==> 0 <= current
      ensures c.Some? ==> c.value == cues[current]
    {
      if 0 <= current < |cues| then Some(cues[current]) else None
    }

    /**
     * `set_current_index(index)`. Under Restart on an empty list Python's
     * `%` raises ZeroDivisionError: `raised` is true and nothing changes.
     */
    method SetCurrentIndex(index: int) returns (raised: bool)
      requires Valid()
      modifies this
      ensures Valid()
      ensures raised <==> endList == EndListBehavior.Restart && |cues| == 0
      ensures !raised ==> current == Retarget(endList, |cues|, old(current), index)
      ensures raised ==> current == old(current)
      ensures log == old(log) && autoContinue == old(autoContinue) && contextItem == old(contextItem)
    {
      var target := index;
      if endList == EndListBehavior.Restart {
        if |cues| == 0 {
          return true;
        }
        target := target % |cues|;
      }
      if 0 <= target < selected.Length {
        current := target;
      }
      return false;
    }

    /**
     * `go(action, advance)`: execute the current cue, announce it, and move
     * the current row by `advance` when auto-continue is on.
     */
    method Go(action: CueAction := CueAction.Default, advance: int := 1)
      requires Valid()
      modifies this
      ensures Valid()
      ensures old(current) == -1 ==> log == old(log) && current == old(current)
      ensures 0 <= old(current) ==> log == old(log) + [Execute(old(current), action), Executed(old(current))]
      ensures 0 <= old(current) && autoContinue ==> current == Retarget(endList, |cues|, old(current), old(current) + advance)
      ensures !autoContinue ==> current == old(current)
      ensures autoContinue == old(autoContinue) && contextItem == old(contextItem)
    {
      var cue := CurrentCue();
      if cue.Some? {
        var row := current;
        log := log + [Execute(row, action), Executed(row)];
        if autoContinue {
          var _ := SetCurrentIndex(row + advance);
        }
      }
    }

    /**
     * `__cue_next(cue)` for the cue on row `cueIndex`: execute its successor
     * if there is one; if that successor is the current cue and auto-continue
     * is on, move the current row past it. No successor is not an error.
     */
    method CueNext(cueIndex: nat)
      requires Valid()
      modifies this
      ensures Valid()
      ensures cueIndex + 1 < |cues| ==> log == old(log) + [Execute(cueIndex + 1, CueAction.Default)]
      ensures cueIndex + 1 >= |cues| ==> log == old(log)
      ensures cueIndex + 1 < |cues| && autoContinue && cueIndex + 1 == old(current)
              ==> current == Retarget(endList, |cues|, old(current), cueIndex + 2)
      ensures !(cueIndex + 1 < |cues| && autoContinue && cueIndex + 1 == old(current)) ==> current == old(current)
      ensures autoContinue == old(autoContinue) && contextItem == old(contextItem)
    {
      var next := cueIndex + 1;
      if next < |cues| {
        log := log + [Execute(next, CueAction.Default)];
        if autoContinue && next == current {
          var _ := SetCurrentIndex(next + 1);
        }
      }
    }

    /** `start_current`: a start to the current cue, if there is one. */
    method StartCurrent()
      requires Valid()
      modifies this
      ensures Valid()
      ensures log == old(log) + if 0 <= current then [StartCue(current)] else []
      ensures current == old(current) && autoContinue == old(autoContinue) && contextItem == old(contextItem)
    {
      var cue := CurrentCue();
      if cue.Some? {
        log := log + [StartCue(current)];
      }
    }

    /** `pause_current`: a pause to the current cue, if there is one. */
    method PauseCurrent()
      requires Valid()
      modifies this
      ensures Valid()
      ensures log == old(log) + if 0 <= current then [PauseCue(current)] else []
      ensures current == old(current) && autoContinue == old(autoContinue) && contextItem == old(contextItem)
    {
      var cue := CurrentCue();
      if cue.Some? {
        log := log + [PauseCue(current)];
      }
    }

    /** `stop_current`: a stop to the current cue, if there is one. */
    method StopCurrent()
      requires Valid()
      modifies this
      ensures Valid()
      ensures log == old(log) + if 0 <= current then [StopCue(current)] else []
      ensures current == old(current) && autoContinue == old(autoContinue) && contextItem == old(contextItem)
    {
      var cue := CurrentCue();
      if cue.Some? {
        log := log + [StopCue(current)];
      }
    }

    method SetAutoNext(enable: bool)
      requires Valid()
      modifies this
      ensures Valid() && autoContinue == enable
      ensures current == old(current) && log == old(log) && contextItem == old(contextItem)
    {
      autoContinue := enable;
    }

    /** `stop_all`: a stop to every cue, in list order. */
    method StopAll()
      requires Valid()
      modifies this
      ensures Valid()
      ensures log == old(log) + ForEveryCue(|cues|, StopCommand)
      ensures current == old(current) && autoContinue == old(autoContinue) && contextItem == old(contextItem)
    {
      var i := 0;
      while i < |cues|
        invariant 0 <= i <= |cues|
        invariant log == old(log) + ForEveryCue(i, StopCommand)
        invariant current == old(current) && autoContinue == old(autoContinue) && contextItem == old(contextItem)
      {
        log := log + [StopCue(i)];
        i := i + 1;
      }
    }

    /** `pause_all`: a pause to every cue, in list order. */
    method PauseAll()
      requires Valid()
      modifies this
      ensures Valid()
      ensures log == old(log) + ForEveryCue(|cues|, PauseCommand)
      ensures current == old(current) && autoContinue == old(autoContinue) && contextItem == old(contextItem)
    {
      var i := 0;
      while i < |cues|
        invariant 0 <= i <= |cues|
        invariant log == old(log) + ForEveryCue(i, PauseCommand)
        invariant current == old(current) && autoContinue == old(autoContinue) && contextItem == old(contextItem)
      {
        log := log + [PauseCue(i)];
        i := i + 1;
      }
    }

    /** `restart_all`: a start to each paused cue and to no other, in list order. */
    method RestartAll()
      requires Valid()
      modifies this
      ensures Valid()
      ensures log == old(log) + RestartCommands(cues, |cues|)
      ensures current == old(current) && autoContinue == old(autoContinue) && contextItem == old(contextItem)
    {
      var i := 0;
      while i < |cues|
        invariant 0 <= i <= |cues|
        invariant log == old(log) + RestartCommands(cues, i)
        invariant current == old(current) && autoContinue == old(autoContinue) && contextItem == old(contextItem)
      {
        if cues[i].state == CueState.Pause {
          log := log + [StartCue(i)];
        }
        i := i + 1;
      }
    }

    /** `select_all(cueClass)`: select every row holding a `cueClass`; other rows keep their flag. */
    method SelectAll(cueClass: string := BaseCue)
      requires Valid()
      modifies selected
      ensures Valid()
      ensures selected[..] == Marked(old(selected[..]), cues, cueClass, true)
    {
      SetSelection(cueClass, true);
    }

    /** `deselect_all(cueClass)`: deselect every row holding a `cueClass`; other rows keep their flag. */
    method DeselectAll(cueClass: string := BaseCue)
      requires Valid()
      modifies selected
      ensures Valid()
      ensures selected[..] == Marked(old(selected[..]), cues, cueClass, false)
    {
      SetSelection(cueClass, false);
    }

    /** The loop shared by `select_all` and `deselect_all`. */
    method SetSelection(cueClass: string, v: bool)
      requires Valid()
      modifies selected
      ensures selected[..] == Marked(old(selected[..]), cues, cueClass, v)
    {
      var i := 0;
      while i < selected.Length
        invariant 0 <= i <= selected.Length
        invariant forall k :: 0 <= k < i ==> selected[k] == if IsInstance(cues[k], cueClass) then v else old(selected[k])
        invariant forall k :: i <= k < selected.Length ==> selected[k] == old(selected[k])
      {
        if IsInstance(cues[i], cueClass) {
          selected[i] := v;
        }
        i := i + 1;
      }
    }

    /** `invert_selection`: flip the flag of every row. */
    method InvertSelection()
      requires Valid()
      modifies selected
      ensures Valid()
      ensures selected[..] == Inverted(old(selected[..]))
    {
      var i := 0;
      while i < selected.Length
        invariant 0 <= i <= selected.Length
        invariant forall k :: 0 <= k < i ==> selected[k] == !old(selected[k])
        invariant forall k :: i <= k < selected.Length ==> selected[k] == old(selected[k])
      {
        selected[i] := !selected[i];
        i := i + 1;
      }
    }

    /** `context_event`: remember the item under the pointer, None when there is no item there. */
    method ContextEvent(row: int)
      requires Valid()
      modifies this
      ensures Valid()
      ensures contextItem == if 0 <= row < |cues| then row else -1
      ensures current == old(current) && autoContinue == old(autoContinue) && log == old(log)
    {
      contextItem := if 0 <= row < |cues| then row else -1;
    }

    /**
     * `select_context_cue`: flip the flag of the context item. With no
     * context item Python raises AttributeError on None: `raised`, and
     * nothing changes.
     */
    method SelectContextCue() returns (raised: bool)
      requires Valid()
      modifies selected
      ensures Valid()
      ensures raised <==> contextItem == -1
      ensures !raised ==> selected[..] == old(selected[..])[contextItem := !old(selected[contextItem])]
      ensures raised ==> selected[..] == old(selected[..])
    {
      if contextItem == -1 {
        return true;
      }
      selected[contextItem] := !selected[contextItem];
      return false;
    }

    /** `get_selected_cues(cueClass)`: the selected cues holding a `cueClass`, in list order. */
    method GetSelectedCues(cueClass: string := BaseCue) returns (r: seq<Cue>)
      requires Valid()
      ensures var rows := SelectedRows(selected[..], cues, cueClass, |cues|);
              |r| == |rows| && forall j :: 0 <= j < |r| ==> r[j] == cues[rows[j]]
    {
      r := [];
      var i := 0;
      while i < selected.Length
        invariant 0 <= i <= selected.Length
        invariant var rows := SelectedRows(selected[..], cues, cueClass, i);
                  |r| == |rows| && forall j :: 0 <= j < |r| ==> r[j] == cues[rows[j]]
      {
        var item := selected[i];
        if item && IsInstance(cues[i], cueClass) {
          r := r + [cues[i]];
        }
        i := i + 1;
      }
    }
  }

  /** Under Stop, `go` on the last cue with advance 1 leaves the current row on that cue. */
  method GoOnLastCueUnderStop(layout: ListLayout)
    requires layout.Valid() && layout.endList == EndListBehavior.Stop
    requires |layout.cues| > 0 && layout.current == |layout.cues| - 1
    modifies layout
    ensures layout.current == |layout.cues| - 1
  {
    layout.Go();
  }
}
