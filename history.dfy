/**
 * `HistoryManager` from json_editor.py: the editor's undo/redo store.
 * `history` holds the states recorded so far, the newest last; `future`
 * holds the states undone, the most recently undone last.  Recording a
 * state forgets the undone ones and drops the oldest state once there are
 * more than `max_history`.
 */
module History {
  import opened Wrappers

  /** The two stacks as values. */
  datatype Stacks<T> = Stacks(past: seq<T>, future: seq<T>)

  /** What an undo or redo leaves and what it returns. */
  datatype Step<T> = Step(next: Stacks<T>, result: Option<T>)

  /** How many states the manager can hold in all; a bound below zero holds none. */
  function Capacity(maxHistory: int): nat {
    if maxHistory < 0 then 0 else maxHistory
  }

  /** The bound `add` keeps: recorded and undone states together never exceed the capacity. */
  predicate Bounded<T>(h: Stacks<T>, maxHistory: int) {
    |h.past| + |h.future| <= Capacity(maxHistory)
  }

  /** `add(state)`: push, forget the undone states, drop the oldest one state when over the bound. */
  function Record<T>(h: Stacks<T>, state: T, maxHistory: int): (r: Stacks<T>)
    ensures r.future == []
    ensures Bounded(h, maxHistory) ==> Bounded(r, maxHistory)
    ensures |h.past| < Capacity(maxHistory) ==> r.past == h.past + [state]
    ensures maxHistory >= 1 ==> r.past != [] && r.past[|r.past| - 1] == state
  {
    var past := h.past + [state];
    if |past| > maxHistory then Stacks(past[1..], []) else Stacks(past, [])
  }

  /** `undo()`: move the newest state onto the future stack and return the one now newest, if any. */
  function Undone<T>(h: Stacks<T>): (r: Step<T>)
    ensures h.past == [] ==> r == Step(h, None)
    ensures h.past != [] ==> var last := h.past[|h.past| - 1];
      && r.next.future == h.future + [last]
      && r.next.past + [last] == h.past
    ensures |r.next.past| + |r.next.future| == |h.past| + |h.future|
  {
    if h.past == [] then Step(h, None)
    else
      var n := |h.past| - 1;
      var next := Stacks(h.past[..n], h.future + [h.past[n]]);
      Step(next, if n > 0 then Some(h.past[n - 1]) else None)
  }

  /** `redo()`: move the most recently undone state back onto the history and return it. */
  function Redone<T>(h: Stacks<T>): (r: Step<T>)
    ensures h.future == [] ==> r == Step(h, None)
    ensures h.future != [] ==> var last := h.future[|h.future| - 1];
      && r.result == Some(last)
      && r.next.past == h.past + [last]
      && r.next.future + [last] == h.future
    ensures |r.next.past| + |r.next.future| == |h.past| + |h.future|
  {
    if h.future == [] then Step(h, None)
    else
      var n := |h.future| - 1;
      Step(Stacks(h.past + [h.future[n]], h.future[..n]), Some(h.future[n]))
  }

  /** `can_undo()`: there is a state before the current one. */
  predicate CanUndo<T>(h: Stacks<T>) {
    |h.past| > 1
  }

  /** `can_redo()`: something has been undone. */
  predicate CanRedo<T>(h: Stacks<T>) {
    |h.future| > 0
  }

  // ---------------------------------------------------------------------
  // Properties
  // ---------------------------------------------------------------------

  /** `can_undo` holds exactly when `undo` has a previous state to return. */
  lemma CanUndoIffResult<T>(h: Stacks<T>)
    ensures CanUndo(h) <==> Undone(h).result.Some?
    ensures CanUndo(h) ==> Undone(h).result.value == h.past[|h.past| - 2]
  {
  }

  /** `can_redo` holds exactly when `redo` returns a state, and that state is the one last undone. */
  lemma CanRedoIffResult<T>(h: Stacks<T>)
    ensures CanRedo(h) <==> Redone(h).result.Some?
    ensures CanRedo(h) ==> Redone(h).result.value == h.future[|h.future| - 1]
  {
  }

  /** Redo after undo restores both stacks, and returns the state the undo removed. */
  lemma RedoAfterUndo<T>(h: Stacks<T>)
    requires h.past != []
    ensures Redone(Undone(h).next).next == h
    ensures Redone(Undone(h).next).result == Some(h.past[|h.past| - 1])
  {
    var n := |h.past| - 1;
    assert h.past[..n] + [h.past[n]] == h.past;
    assert (h.future + [h.past[n]])[..|h.future|] == h.future;
  }

  /** Undo after redo restores both stacks. */
  lemma UndoAfterRedo<T>(h: Stacks<T>)
    requires h.future != []
    ensures Undone(Redone(h).next).next == h
  {
    var n := |h.future| - 1;
    assert (h.past + [h.future[n]])[..|h.past|] == h.past;
    assert h.future[..n] + [h.future[n]] == h.future;
  }

  /** Recording states one after another keeps the latest `max_history` of them, oldest first. */
  function RecordAll<T>(h: Stacks<T>, states: seq<T>, maxHistory: int): Stacks<T>
    decreases |states|
  {
    if states == [] then h else RecordAll(Record(h, states[0], maxHistory), states[1..], maxHistory)
  }

  /** The newest `k` elements of `s` (all of them when there are fewer). */
  function Latest<T>(s: seq<T>, k: nat): (r: seq<T>)
    ensures |r| == (if |s| <= k then |s| else k) && r == s[|s| - |r|..]
  {
    if |s| <= k then s else s[|s| - k..]
  }

  lemma {:induction false} RecordAllKeepsLatest<T>(h: Stacks<T>, states: seq<T>, maxHistory: int)
    requires |h.past| <= Capacity(maxHistory)
    ensures RecordAll(h, states, maxHistory).past == Latest(h.past + states, Capacity(maxHistory))
    ensures states != [] ==> RecordAll(h, states, maxHistory).future == []
    decreases |states|
  {
    if states != [] {
      var c := Capacity(maxHistory);
      var h' := Record(h, states[0], maxHistory);
      assert h'.past == Latest(h.past + [states[0]], c);
      RecordAllKeepsLatest(h', states[1..], maxHistory);
      SplitFirst(h.past, states);
      LatestAppend(h.past + [states[0]], states[1..], c);
    }
  }

  lemma SplitFirst<T>(a: seq<T>, s: seq<T>)
    requires s != []
    ensures a + s == (a + [s[0]]) + s[1..]
  {
    assert s == [s[0]] + s[1..];
  }

  lemma LatestAppend<T>(s: seq<T>, t: seq<T>, k: nat)
    ensures Latest(Latest(s, k) + t, k) == Latest(s + t, k)
  {
    var s' := Latest(s, k);
    if |s| > k {
      assert (s' + t)[|s' + t| - (if |s' + t| <= k then |s' + t| else k)..] ==
        (s + t)[|s + t| - (if |s + t| <= k then |s + t| else k)..];
    }
  }

  // ---------------------------------------------------------------------
  // The manager object
  // ---------------------------------------------------------------------

  class HistoryManager<T> {
    var history: seq<T>
    var future: seq<T>
    var maxHistory: int

    function Snapshot(): Stacks<T>
      reads this
    {
      Stacks(history, future)
    }

    predicate Valid()
      reads this
    {
      Bounded(Snapshot(), maxHistory)
    }

    /** `HistoryManager(max_history)`: both stacks empty. */
    constructor (maxHistory: int)
      ensures history == [] && future == [] && this.maxHistory == maxHistory
      ensures Valid()
    {
      history := [];
      future := [];
      this.maxHistory := maxHistory;
    }

    method Add(state: T)
      modifies this
      ensures Snapshot() == Record(old(Snapshot()), state, maxHistory)
      ensures maxHistory == old(maxHistory)
      ensures old(Valid()) ==> Valid()
    {
      history := history + [state];
      future := [];
      if |history| > maxHistory {
        history := history[1..];
      }
    }

    method Undo() returns (r: Option<T>)
      modifies this
      ensures Step(Snapshot(), r) == Undone(old(Snapshot()))
      ensures maxHistory == old(maxHistory)
      ensures old(Valid()) ==> Valid()
    {
      if history == [] {
        return None;
      }
      var current := history[|history| - 1];
      history := history[..|history| - 1];
      future := future + [current];
      if history != [] {
        return Some(history[|history| - 1]);
      }
      return None;
    }

    method Redo() returns (r: Option<T>)
      modifies this
      ensures Step(Snapshot(), r) == Redone(old(Snapshot()))
      ensures maxHistory == old(maxHistory)
      ensures old(Valid()) ==> Valid()
    {
      if future == [] {
        return None;
      }
      var next := future[|future| - 1];
      future := future[..|future| - 1];
      history := history + [next];
      return Some(next);
    }
  }
}
