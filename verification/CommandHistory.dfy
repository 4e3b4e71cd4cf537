/** The undo and redo stacks of the editor. */
module CommandHistory {
  import opened Basics
  import opened EditorCommands

  /** The stacks, bottom first, and the document that the commands act on. */
  datatype State = State(undoStack: seq<Command>, redoStack: seq<Command>, doc: Document)

  /** The stack without its oldest entry, when it is full. */
  function Evict(stack: seq<Command>, maxDepth: nat): seq<Command> {
    if |stack| >= maxDepth && stack != [] then stack[1..] else stack
  }

  /** `execute`: a failing command leaves both stacks alone. */
  function AfterExecute(s: State, c: Command, maxDepth: nat): State {
    var r := Execute(c, s.doc);
    if r.ok then State(Evict(s.undoStack, maxDepth) + [r.command], [], r.doc) else s.(doc := r.doc)
  }

  /** `undo`: a failing command goes back onto the stack it came from. */
  function AfterUndo(s: State): State {
    if s.undoStack == [] then s else
      var n := |s.undoStack| - 1;
      var r := Undo(s.undoStack[n], s.doc);
      if r.ok then State(s.undoStack[..n], s.redoStack + [r.command], r.doc)
      else State(s.undoStack[..n] + [r.command], s.redoStack, r.doc)
  }

  /** `redo`. */
  function AfterRedo(s: State): State {
    if s.redoStack == [] then s else
      var n := |s.redoStack| - 1;
      var r := Execute(s.redoStack[n], s.doc);
      if r.ok then State(s.undoStack + [r.command], s.redoStack[..n], r.doc)
      else State(s.undoStack, s.redoStack[..n] + [r.command], r.doc)
  }

  class History {
    var undoStack: seq<Command>
    var redoStack: seq<Command>
    var doc: Document
    const maxDepth: nat

    function View(): State
      reads this
    {
      State(undoStack, redoStack, doc)
    }

    constructor (maxDepth: nat, doc: Document)
      ensures View() == State([], [], doc) && this.maxDepth == maxDepth
    {
      undoStack, redoStack := [], [];
      this.doc := doc;
      this.maxDepth := maxDepth;
    }

    method ExecuteCommand(command: Command) returns (success: bool)
      modifies this
      ensures View() == AfterExecute(old(View()), command, maxDepth) && success == Execute(command, old(doc)).ok
    {
      hide Execute;
      var r := Execute(command, doc);
      doc := r.doc;
      if !r.ok {
        return false;
      }
      if |undoStack| >= maxDepth {
        undoStack := if undoStack == [] then [] else undoStack[1..];
      }
      undoStack := undoStack + [r.command];
      redoStack := [];
      success := true;
    }

    method UndoLast() returns (success: bool)
      modifies this
      ensures View() == AfterUndo(old(View()))
      ensures success == (old(undoStack) != [] && Undo(old(undoStack)[|old(undoStack)| - 1], old(doc)).ok)
    {
      hide Undo;
      if undoStack == [] {
        return false;
      }
      var n := |undoStack| - 1;
      var command := undoStack[n];
      undoStack := undoStack[..n];
      var r := Undo(command, doc);
      doc := r.doc;
      if r.ok {
        redoStack := redoStack + [r.command];
      } else {
        undoStack := undoStack + [r.command];
      }
      success := r.ok;
    }

    method RedoLast() returns (success: bool)
      modifies this
      ensures View() == AfterRedo(old(View()))
      ensures success == (old(redoStack) != [] && Execute(old(redoStack)[|old(redoStack)| - 1], old(doc)).ok)
    {
      hide Execute;
      if redoStack == [] {
        return false;
      }
      var n := |redoStack| - 1;
      var command := redoStack[n];
      redoStack := redoStack[..n];
      var r := Execute(command, doc);
      doc := r.doc;
      if r.ok {
        undoStack := undoStack + [r.command];
      } else {
        redoStack := redoStack + [r.command];
      }
      success := r.ok;
    }
  }

  // ---------------------------------------------------------------------------------------------
  // One timeline
  // ---------------------------------------------------------------------------------------------

  /** Undoing the stack from `doc` succeeds all the way down, and every step back can be taken forward again. */
  ghost predicate Unwinds(stack: seq<Command>, doc: Document)
    decreases |stack|
  {
    stack == [] ||
      var n := |stack| - 1;
      var back := Undo(stack[n], doc);
      back.ok && Execute(back.command, back.doc) == Outcome(stack[n], doc, true) && Unwinds(stack[..n], back.doc)
  }

  /** Redoing the stack from `doc` succeeds all the way down, and every step forward can be taken back again. */
  ghost predicate Replays(stack: seq<Command>, doc: Document)
    decreases |stack|
  {
    stack == [] ||
      var n := |stack| - 1;
      var next := Execute(stack[n], doc);
      next.ok && Undo(next.command, next.doc) == Outcome(stack[n], doc, true) && Replays(stack[..n], next.doc)
  }

  /** The document stands between its past and its future. */
  ghost predicate OnTimeline(s: State) {
    Unwinds(s.undoStack, s.doc) && Replays(s.redoStack, s.doc)
  }

  lemma {:induction false} UnwindsWithoutOldest(stack: seq<Command>, doc: Document)
    requires Unwinds(stack, doc) && stack != []
    ensures Unwinds(stack[1..], doc)
    decreases |stack|
  {
    hide Undo, Execute;
    var n := |stack| - 1;
    if n > 0 {
      UnwindsWithoutOldest(stack[..n], Undo(stack[n], doc).doc);
      assert stack[..n][1..] == stack[1..][..n - 1] && stack[1..][n - 1] == stack[n];
    }
  }

  lemma UnwindsPush(stack: seq<Command>, doc: Document, c: Command, doc': Document)
    requires Unwinds(stack, doc)
    requires Undo(c, doc').ok && Undo(c, doc').doc == doc
    requires Execute(Undo(c, doc').command, doc) == Outcome(c, doc', true)
    ensures Unwinds(stack + [c], doc')
  {
    hide Undo, Execute;
    var all := stack + [c];
    assert all[..|stack|] == stack && all[|stack|] == c;
  }

  lemma ReplaysPush(stack: seq<Command>, doc: Document, c: Command, doc': Document)
    requires Replays(stack, doc')
    requires Execute(c, doc).ok && Execute(c, doc).doc == doc'
    requires Undo(Execute(c, doc).command, doc') == Outcome(c, doc, true)
    ensures Replays(stack + [c], doc)
  {
    hide Undo, Execute;
    var all := stack + [c];
    assert all[..|stack|] == stack && all[|stack|] == c;
  }

  lemma ExecuteStaysOnTimeline(s: State, c: Command, maxDepth: nat)
    requires OnTimeline(s) && Fresh(c) && Records(c, s.doc)
    ensures OnTimeline(AfterExecute(s, c, maxDepth))
    ensures !Execute(c, s.doc).ok ==> AfterExecute(s, c, maxDepth) == s
    ensures Execute(c, s.doc).ok ==>
      var u := AfterUndo(AfterExecute(s, c, maxDepth));
      && u.doc == s.doc
      && u.undoStack == if |s.undoStack| < maxDepth || |s.undoStack| == 0 then s.undoStack else s.undoStack[1..]
  {
    hide Execute, Undo, Fresh, Records;
    ExecuteCancels(c, s.doc);
    var r := Execute(c, s.doc);
    if r.ok {
      var kept := Evict(s.undoStack, maxDepth);
      if kept != s.undoStack {
        UnwindsWithoutOldest(s.undoStack, s.doc);
      }
      UnwindsPush(kept, s.doc, r.command, r.doc);
      assert (kept + [r.command])[..|kept|] == kept;
    }
  }

  /** On the timeline an undo never fails, and a redo takes it back, stacks included. */
  lemma UndoThenRedo(s: State)
    requires OnTimeline(s) && s.undoStack != []
    ensures OnTimeline(AfterUndo(s)) && |AfterUndo(s).undoStack| == |s.undoStack| - 1
    ensures |AfterUndo(s).redoStack| == |s.redoStack| + 1
    ensures AfterRedo(AfterUndo(s)) == s
  {
    hide Execute, Undo;
    var n := |s.undoStack| - 1;
    var back := Undo(s.undoStack[n], s.doc);
    ReplaysPush(s.redoStack, back.doc, back.command, s.doc);
    var u := AfterUndo(s);
    assert u.redoStack[..|s.redoStack|] == s.redoStack && u.redoStack[|s.redoStack|] == back.command;
    assert s.undoStack[..n] + [s.undoStack[n]] == s.undoStack;
  }

  lemma RedoThenUndo(s: State)
    requires OnTimeline(s) && s.redoStack != []
    ensures OnTimeline(AfterRedo(s)) && |AfterRedo(s).redoStack| == |s.redoStack| - 1
    ensures |AfterRedo(s).undoStack| == |s.undoStack| + 1
    ensures AfterUndo(AfterRedo(s)) == s
  {
    hide Execute, Undo;
    var n := |s.redoStack| - 1;
    var next := Execute(s.redoStack[n], s.doc);
    UnwindsPush(s.undoStack, s.doc, next.command, next.doc);
    var r := AfterRedo(s);
    assert r.undoStack[..|s.undoStack|] == s.undoStack && r.undoStack[|s.undoStack|] == next.command;
    assert s.redoStack[..n] + [s.redoStack[n]] == s.redoStack;
  }

  function UndoTimes(s: State, k: nat): State
    decreases k
  {
    if k == 0 then s else UndoTimes(AfterUndo(s), k - 1)
  }

  function RedoTimes(s: State, k: nat): State
    decreases k
  {
    if k == 0 then s else AfterRedo(RedoTimes(s, k - 1))
  }

  /** `k` undos and then `k` redos restore the document and both stacks. */
  lemma {:induction false} UndosThenRedos(s: State, k: nat)
    requires OnTimeline(s) && k <= |s.undoStack|
    ensures RedoTimes(UndoTimes(s, k), k) == s
    ensures |UndoTimes(s, k).undoStack| == |s.undoStack| - k && |UndoTimes(s, k).redoStack| == |s.redoStack| + k
    decreases k
  {
    hide AfterUndo, AfterRedo, OnTimeline;
    if k > 0 {
      UndoThenRedo(s);
      UndosThenRedos(AfterUndo(s), k - 1);
    }
  }

  /** No entry gets lost, in any state: one that fails to undo or to redo goes back to where it was. */
  lemma NoEntryIsLost(s: State)
    ensures
      var u, n := AfterUndo(s), |s.undoStack| - 1;
      && |u.undoStack| + |u.redoStack| == |s.undoStack| + |s.redoStack| && s.redoStack <= u.redoStack
      && (n >= 0 ==> s.undoStack[..n] <= u.undoStack && (|u.undoStack| == n <==> Undo(s.undoStack[n], s.doc).ok))
    ensures
      var r, n := AfterRedo(s), |s.redoStack| - 1;
      && |r.undoStack| + |r.redoStack| == |s.undoStack| + |s.redoStack| && s.undoStack <= r.undoStack
      && (n >= 0 ==> s.redoStack[..n] <= r.redoStack && (|r.redoStack| == n <==> Execute(s.redoStack[n], s.doc).ok))
  {
    hide Execute, Undo;
  }

  // ---------------------------------------------------------------------------------------------
  // What the document shows
  // ---------------------------------------------------------------------------------------------

  /**
    An execution that succeeds shows all its changes, puts one entry on top of the past, from which only the oldest falls
    out, and that only when it is full, and forgets the future. Without success both stacks stay.
  */
  lemma ExecutionShows(s: State, c: Command, maxDepth: nat)
    ensures
      var s' := AfterExecute(s, c, maxDepth);
      if Succeeds(c) then
        && Rewritten(s.doc, Writes(c), s'.doc) && s'.redoStack == []
        && |s'.undoStack| > 0 && Writes(s'.undoStack[|s'.undoStack| - 1]) == Writes(c)
        && s'.undoStack[..|s'.undoStack| - 1] ==
             (if |s.undoStack| < maxDepth || |s.undoStack| == 0 then s.undoStack else s.undoStack[1..])
      else s'.undoStack == s.undoStack && s'.redoStack == s.redoStack
  {
    hide Execute, Writes, Succeeds, Rewritten;
    ExecuteAchieves(c, s.doc);
    var kept := Evict(s.undoStack, maxDepth);
    assert (kept + [Execute(c, s.doc).command])[..|kept|] == kept;
  }

  /** A redo brings back all changes of the command that it repeats. */
  lemma RedoShows(s: State)
    requires OnTimeline(s) && s.redoStack != []
    ensures Rewritten(s.doc, Writes(s.redoStack[|s.redoStack| - 1]), AfterRedo(s).doc)
  {
    hide Execute, Undo, Writes, Rewritten;
    ExecuteAchieves(s.redoStack[|s.redoStack| - 1], s.doc);
  }

  /** The changes of the last `k` commands of the past, oldest first. */
  function LastWrites(stack: seq<Command>, k: nat): seq<Write>
    requires k <= |stack|
    decreases k
  {
    if k == 0 then [] else LastWrites(stack[..|stack| - 1], k - 1) + Writes(stack[|stack| - 1])
  }

  /** The document is what the last `k` commands of the past make of the document that `k` undos lead to. */
  lemma {:induction false} PastExplainsDocument(s: State, k: nat)
    requires OnTimeline(s) && k <= |s.undoStack|
    ensures Rewritten(UndoTimes(s, k).doc, LastWrites(s.undoStack, k), s.doc)
    decreases k
  {
    hide Execute, Undo, Writes, Rewritten;
    if k == 0 {
      NothingRewritten(s.doc);
    } else {
      var n := |s.undoStack| - 1;
      var back := Undo(s.undoStack[n], s.doc);
      var s' := AfterUndo(s);
      ExecuteAchieves(back.command, back.doc);
      UndoThenRedo(s);
      PastExplainsDocument(s', k - 1);
      RewrittenConcat(UndoTimes(s, k).doc, LastWrites(s'.undoStack, k - 1), s'.doc, Writes(s.undoStack[n]), s.doc);
    }
  }

  // ---------------------------------------------------------------------------------------------
  // Whole runs
  // ---------------------------------------------------------------------------------------------

  datatype Action = Do(command: Command) | UndoOnce | RedoOnce

  function Act(s: State, a: Action, maxDepth: nat): State {
    match a
    case Do(c) => AfterExecute(s, c, maxDepth)
    case UndoOnce => AfterUndo(s)
    case RedoOnce => AfterRedo(s)
  }

  function Run(s: State, actions: seq<Action>, maxDepth: nat): State
    decreases |actions|
  {
    if actions == [] then s else Run(Act(s, actions[0], maxDepth), actions[1..], maxDepth)
  }

  /** Every executed command is new and has recorded the state in front of it. */
  ghost predicate Recorded(s: State, actions: seq<Action>, maxDepth: nat)
    decreases |actions|
  {
    actions == [] ||
      ((actions[0].Do? ==> Fresh(actions[0].command) && Records(actions[0].command, s.doc))
       && Recorded(Act(s, actions[0], maxDepth), actions[1..], maxDepth))
  }

  predicate Bounded(s: State, maxDepth: nat) {
    |s.undoStack| + |s.redoStack| <= Max(maxDepth, 1)
  }

  /** In every run the editor stays on one timeline and within its depth. */
  lemma {:induction false} RunStaysOnTimeline(s: State, actions: seq<Action>, maxDepth: nat)
    requires OnTimeline(s) && Bounded(s, maxDepth) && Recorded(s, actions, maxDepth)
    ensures OnTimeline(Run(s, actions, maxDepth)) && Bounded(Run(s, actions, maxDepth), maxDepth)
    decreases |actions|
  {
    hide AfterRedo, AfterUndo, OnTimeline, Execute, Fresh, Records;
    if actions != [] {
      var a := actions[0];
      if a.Do? {
        ExecuteStaysOnTimeline(s, a.command, maxDepth);
      } else if a.UndoOnce? {
        if s.undoStack != [] {
          UndoThenRedo(s);
        } else {
          NothingToUndo(s);
        }
      } else if s.redoStack != [] {
        RedoThenUndo(s);
      } else {
        NothingToRedo(s);
      }
      RunStaysOnTimeline(Act(s, a, maxDepth), actions[1..], maxDepth);
    }
  }

  lemma NothingToUndo(s: State)
    requires s.undoStack == []
    ensures AfterUndo(s) == s
  {
  }

  lemma NothingToRedo(s: State)
    requires s.redoStack == []
    ensures AfterRedo(s) == s
  {
  }

  /** The timeline of a whole session, from an empty history: any number of undos can be taken back. */
  lemma SessionTimeline(doc: Document, actions: seq<Action>, maxDepth: nat, k: nat)
    requires Recorded(State([], [], doc), actions, maxDepth)
    requires k <= |Run(State([], [], doc), actions, maxDepth).undoStack|
    ensures
      var s := Run(State([], [], doc), actions, maxDepth);
      RedoTimes(UndoTimes(s, k), k) == s && Bounded(s, maxDepth)
  {
    hide Run, Recorded, UndoTimes, RedoTimes;
    RunStaysOnTimeline(State([], [], doc), actions, maxDepth);
    UndosThenRedos(Run(State([], [], doc), actions, maxDepth), k);
  }
}
