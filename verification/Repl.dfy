/** The state of the REPL and the status events by which the client mirrors it, at any nesting of prompts. */
module Repl {
  datatype ReplState = Prompt | ReplBusy | DebugPrompt | ReadLine | SubprocessInput

  /** Status events; each one announces a state. */
  datatype Event = PromptEvent | BusyEvent | DebugPromptEvent(changed: bool) | RequestReadLn | SubprocessInputEvent

  function Announced(e: Event): ReplState {
    match e
    case PromptEvent => Prompt
    case BusyEvent => ReplBusy
    case DebugPromptEvent(_) => DebugPrompt
    case RequestReadLn => ReadLine
    case SubprocessInputEvent => SubprocessInput
  }

  // ----- Scripts: what happens in a run -----

  /** A task of the event loop executes code for the client, as a REPL command or silently, and ends a
      jump to the top level raised in it; or it evaluates code for itself, as the refresh of a data
      frame does, and lets the jump pass. */
  datatype Task = Execute(isRepl: bool, code: seq<Action>) | Evaluate(code: seq<Action>)

  /** Code may ask for a line, reach a breakpoint, or wait for a subprocess; while it does so, a nested
      event loop handles tasks. It may also jump to the top level. */
  datatype Action =
    | AskLine(tasks: seq<Task>)
    | ReachBreakpoint(tasks: seq<Task>)
    | RunSubprocess(askInput: bool, tasks: seq<Task>)
    | JumpToTopLevel

  predicate AcceptsCommands(s: ReplState) { s == Prompt || s == DebugPrompt }

  /** The client sends REPL commands only at a prompt or debug prompt. */
  predicate PoliteTasks(tasks: seq<Task>, s: ReplState)
    decreases tasks
  {
    forall i :: 0 <= i < |tasks| ==> PoliteTask(tasks[i], s)
  }

  predicate PoliteTask(t: Task, s: ReplState)
    decreases t
  {
    match t
    case Execute(isRepl, code) => (isRepl ==> AcceptsCommands(s)) && PoliteCode(code, StateInside(isRepl, s))
    case Evaluate(code) => PoliteCode(code, s)
  }

  function StateInside(isRepl: bool, s: ReplState): ReplState { if isRepl then ReplBusy else s }

  predicate PoliteCode(code: seq<Action>, s: ReplState)
    decreases code
  {
    forall i :: 0 <= i < |code| ==> PoliteAction(code[i], s)
  }

  predicate PoliteAction(a: Action, s: ReplState)
    decreases a
  {
    match a
    case AskLine(tasks) => s == ReplBusy ==> PoliteTasks(tasks, ReadLine)
    case ReachBreakpoint(tasks) => s == ReplBusy ==> PoliteTasks(tasks, DebugPrompt)
    case RunSubprocess(askInput, tasks) => PoliteTasks(tasks, StateDuring(askInput, s))
    case JumpToTopLevel => true
  }

  predicate Asks(askInput: bool, s: ReplState) { askInput && s == ReplBusy }

  function StateDuring(askInput: bool, s: ReplState): ReplState {
    if Asks(askInput, s) then SubprocessInput else s
  }

  // ----- How a run ends -----

  /** Code and loops run to their end or are left by a jump. A jump that leaves a prompt skips the
      event that would say that the REPL is busy again. */
  datatype End = Finished | Jumped | JumpedFromPrompt

  function LeavePrompt(e: End): End { if e == Finished then Finished else JumpedFromPrompt }

  function LoopEnd(tasks: seq<Task>, s: ReplState): End
    decreases tasks
  {
    if tasks == [] then Finished else
    var e := TaskEnd(tasks[0], s);
    if e == Finished then LoopEnd(tasks[1..], s) else e
  }

  function TaskEnd(t: Task, s: ReplState): End
    decreases t
  {
    match t
    case Execute(_, _) => Finished
    case Evaluate(code) => CodeEnd(code, s)
  }

  function CodeEnd(code: seq<Action>, s: ReplState): End
    decreases code
  {
    if code == [] then Finished else
    var e := ActionEnd(code[0], s);
    if e == Finished then CodeEnd(code[1..], s) else e
  }

  function ActionEnd(a: Action, s: ReplState): End
    decreases a
  {
    match a
    case AskLine(tasks) => if s == ReplBusy then LeavePrompt(LoopEnd(tasks, ReadLine)) else Finished
    case ReachBreakpoint(tasks) => if s == ReplBusy then LeavePrompt(LoopEnd(tasks, DebugPrompt)) else Finished
    case RunSubprocess(askInput, tasks) =>
      if Asks(askInput, s) then LeavePrompt(LoopEnd(tasks, SubprocessInput)) else LoopEnd(tasks, s)
    case JumpToTopLevel => Jumped
  }

  // ----- When the client loses track -----

  /** Somewhere in the run code executed silently is left by a jump from one of its prompts: nothing
      tells the client that the prompt is gone. */
  predicate LoopMisleads(tasks: seq<Task>, s: ReplState)
    decreases tasks
  {
    tasks != [] &&
    (TaskMisleads(tasks[0], s) || (TaskEnd(tasks[0], s) == Finished && LoopMisleads(tasks[1..], s)))
  }

  predicate TaskMisleads(t: Task, s: ReplState)
    decreases t
  {
    match t
    case Execute(isRepl, code) =>
      CodeMisleads(code, StateInside(isRepl, s)) || (!isRepl && CodeEnd(code, s) == JumpedFromPrompt)
    case Evaluate(code) => CodeMisleads(code, s)
  }

  predicate CodeMisleads(code: seq<Action>, s: ReplState)
    decreases code
  {
    code != [] &&
    (ActionMisleads(code[0], s) || (ActionEnd(code[0], s) == Finished && CodeMisleads(code[1..], s)))
  }

  predicate ActionMisleads(a: Action, s: ReplState)
    decreases a
  {
    match a
    case AskLine(tasks) => s == ReplBusy && LoopMisleads(tasks, ReadLine)
    case ReachBreakpoint(tasks) => s == ReplBusy && LoopMisleads(tasks, DebugPrompt)
    case RunSubprocess(askInput, tasks) => LoopMisleads(tasks, StateDuring(askInput, s))
    case JumpToTopLevel => false
  }

  /** Prompts appear only while the REPL is busy, so a loop in any other state is not left from one. */
  lemma {:induction false} PromptsOnlyWhenBusy(tasks: seq<Task>, s: ReplState)
    requires s != ReplBusy
    ensures LoopEnd(tasks, s) != JumpedFromPrompt
    decreases tasks
  {
    if tasks != [] {
      PromptsOnlyWhenBusy(tasks[1..], s);
      match tasks[0]
      case Execute(_, _) =>
      case Evaluate(code) => PromptsOnlyInBusyCode(code, s);
    }
  }

  lemma {:induction false} PromptsOnlyInBusyCode(code: seq<Action>, s: ReplState)
    requires s != ReplBusy
    ensures CodeEnd(code, s) != JumpedFromPrompt
    decreases code
  {
    if code != [] {
      PromptsOnlyInBusyCode(code[1..], s);
      match code[0]
      case RunSubprocess(_, tasks) => PromptsOnlyWhenBusy(tasks, s);
      case _ =>
    }
  }

  class Service {
    var replState: ReplState
    var asyncEvents: seq<Event>
    // has the last event announced the state whenever an event loop was idle?
    ghost var mirrored: bool

    /** The last status event announces the current state. */
    predicate Agrees()
      reads this
    {
      asyncEvents != [] && Announced(asyncEvents[|asyncEvents| - 1]) == replState
    }

    /** A run from state s that ended with e: the state is back, and the client is right unless a
        prompt was left by a jump. */
    twostate predicate CameBack(e: End, misleads: bool)
      reads this
    {
      && replState == old(replState)
      && (mirrored <==> old(mirrored) && !misleads)
      && (mirrored ==> (Agrees() <==> e != JumpedFromPrompt))
    }

    constructor ()
      ensures replState == ReplBusy && asyncEvents == [] && mirrored
    {
      replState, asyncEvents, mirrored := ReplBusy, [], true;
    }

    method Send(e: Event)
      modifies `asyncEvents
      ensures asyncEvents == old(asyncEvents) + [e]
    {
      asyncEvents := asyncEvents + [e];
    }

    /** Waits for tasks and runs them; it is idle before, between and after them. A jump that passes a
        task leaves the loop. */
    method RunEventLoop(tasks: seq<Task>) returns (jumped: bool)
      requires (mirrored ==> Agrees()) && PoliteTasks(tasks, replState)
      modifies this
      ensures jumped <==> LoopEnd(tasks, replState) != Finished
      ensures CameBack(LoopEnd(tasks, replState), LoopMisleads(tasks, replState))
      decreases tasks, 1
    {
      mirrored := mirrored && Agrees();
      for i := 0 to |tasks|
        invariant replState == old(replState) && (mirrored ==> Agrees())
        invariant LoopEnd(tasks, replState) == LoopEnd(tasks[i..], replState)
        invariant mirrored && !LoopMisleads(tasks[i..], replState) <==>
                  old(mirrored) && !LoopMisleads(tasks, replState)
      {
        assert PoliteTask(tasks[i], replState) && tasks[i..][0] == tasks[i] && tasks[i..][1..] == tasks[i + 1..];
        jumped := RunTask(tasks[i]);
        if jumped {
          return;
        }
        mirrored := mirrored && Agrees();
      }
      jumped := false;
    }

    method RunTask(t: Task) returns (jumped: bool)
      requires (mirrored ==> Agrees()) && PoliteTask(t, replState)
      modifies this
      ensures jumped <==> TaskEnd(t, replState) != Finished
      ensures t.Evaluate? ==> CameBack(TaskEnd(t, replState), TaskMisleads(t, replState))
      ensures replState == old(replState)
      ensures t.Execute? ==> (mirrored && Agrees() <==> old(mirrored) && !TaskMisleads(t, replState))
      decreases t, 1
    {
      match t
      case Execute(isRepl, code) =>
        ExecuteCode(isRepl, code);
        jumped := false;
      case Evaluate(code) =>
        jumped := RunCode(code);
    }

    /** Runs code for the client and ends any jump in it. Afterwards the state is as before; a REPL
        command leaves the last event in agreement with it exactly when it was sent at a prompt or debug
        prompt, silent code exactly when no jump left one of its prompts. */
    method ExecuteCode(isRepl: bool, code: seq<Action>)
      requires !isRepl && mirrored ==> Agrees()
      requires PoliteCode(code, StateInside(isRepl, replState))
      modifies this
      ensures replState == old(replState)
      ensures mirrored <==> old(mirrored) && !CodeMisleads(code, StateInside(isRepl, replState))
      ensures isRepl ==> (Agrees() <==> AcceptsCommands(replState))
      ensures !isRepl && mirrored ==> (Agrees() <==> CodeEnd(code, replState) != JumpedFromPrompt)
      decreases code, 2
    {
      var saved := replState;
      replState := StateInside(isRepl, replState);
      if isRepl {
        Send(BusyEvent);
      }
      var _ := RunCode(code);
      replState := saved;
      if isRepl {
        if replState == DebugPrompt {
          Send(DebugPromptEvent(false));
        } else {
          Send(PromptEvent);
        }
      }
    }

    method RunCode(code: seq<Action>) returns (jumped: bool)
      requires (mirrored ==> Agrees()) && PoliteCode(code, replState)
      modifies this
      ensures jumped <==> CodeEnd(code, replState) != Finished
      ensures CameBack(CodeEnd(code, replState), CodeMisleads(code, replState))
      decreases code, 1
    {
      for i := 0 to |code|
        invariant replState == old(replState) && (mirrored ==> Agrees())
        invariant CodeEnd(code, replState) == CodeEnd(code[i..], replState)
        invariant mirrored && !CodeMisleads(code[i..], replState) <==>
                  old(mirrored) && !CodeMisleads(code, replState)
      {
        assert PoliteAction(code[i], replState) && code[i..][0] == code[i] && code[i..][1..] == code[i + 1..];
        match code[i] {
          case AskLine(tasks) => jumped := ReadLineHandler(tasks);
          case ReachBreakpoint(tasks) => jumped := DebugPromptHandler(tasks);
          case RunSubprocess(askInput, tasks) => jumped := SubprocessHandler(askInput, tasks);
          case JumpToTopLevel => jumped := true;
        }
        if jumped {
          return;
        }
      }
      jumped := false;
    }

    method ReadLineHandler(tasks: seq<Task>) returns (jumped: bool)
      requires (mirrored ==> Agrees()) && PoliteAction(AskLine(tasks), replState)
      modifies this
      ensures jumped <==> ActionEnd(AskLine(tasks), replState) != Finished
      ensures CameBack(ActionEnd(AskLine(tasks), replState), ActionMisleads(AskLine(tasks), replState))
      decreases tasks, 2
    {
      if replState != ReplBusy {
        return false;
      }
      Send(RequestReadLn);
      replState := ReadLine;
      jumped := RunEventLoop(tasks);
      PromptsOnlyWhenBusy(tasks, ReadLine);
      if !jumped {
        Send(BusyEvent);
      }
      replState := ReplBusy;
    }

    method DebugPromptHandler(tasks: seq<Task>) returns (jumped: bool)
      requires (mirrored ==> Agrees()) && PoliteAction(ReachBreakpoint(tasks), replState)
      modifies this
      ensures jumped <==> ActionEnd(ReachBreakpoint(tasks), replState) != Finished
      ensures CameBack(ActionEnd(ReachBreakpoint(tasks), replState), ActionMisleads(ReachBreakpoint(tasks), replState))
      decreases tasks, 2
    {
      if replState != ReplBusy {
        return false;
      }
      Send(DebugPromptEvent(true));
      replState := DebugPrompt;
      jumped := RunEventLoop(tasks);
      PromptsOnlyWhenBusy(tasks, DebugPrompt);
      if !jumped {
        Send(BusyEvent);
      }
      replState := ReplBusy;
    }

    method SubprocessHandler(askInput: bool, tasks: seq<Task>) returns (jumped: bool)
      requires (mirrored ==> Agrees()) && PoliteAction(RunSubprocess(askInput, tasks), replState)
      modifies this
      ensures jumped <==> ActionEnd(RunSubprocess(askInput, tasks), replState) != Finished
      ensures CameBack(ActionEnd(RunSubprocess(askInput, tasks), replState),
                       ActionMisleads(RunSubprocess(askInput, tasks), replState))
      decreases tasks, 2
    {
      var saved := replState;
      var asks := askInput && replState == ReplBusy;
      if asks {
        Send(SubprocessInputEvent);
        replState := SubprocessInput;
      }
      jumped := RunEventLoop(tasks);
      if asks {
        PromptsOnlyWhenBusy(tasks, SubprocessInput);
      }
      if !jumped && asks {
        Send(BusyEvent);
      }
      replState := saved;
    }

    /** The main loop, for any number of rounds: each one ends by a jump to the top level or because
        the loop was left. Whenever any event loop is idle, the last event announces the state, exactly
        unless silent code was left by a jump from a prompt; the state after a round is `Prompt` again,
        so that the repair that follows has nothing to do. */
    method MainLoop(rounds: seq<seq<Task>>)
      requires mirrored && forall r <- rounds :: PoliteTasks(r, Prompt)
      modifies this
      ensures replState == Prompt
      ensures mirrored <==> forall r <- rounds :: !LoopMisleads(r, Prompt)
      ensures mirrored ==> Agrees()
    {
      Send(PromptEvent);
      replState := Prompt;
      for i := 0 to |rounds|
        invariant replState == Prompt && (mirrored ==> Agrees())
        invariant mirrored <==> forall k :: 0 <= k < i ==> !LoopMisleads(rounds[k], Prompt)
      {
        assert rounds[i] in rounds;
        var _ := RunEventLoop(rounds[i]);
        PromptsOnlyWhenBusy(rounds[i], Prompt);
        BackToPrompt();
      }
    }

    /** The repair at the end of a round. */
    method BackToPrompt()
      modifies this
      ensures replState == Prompt && mirrored == old(mirrored)
      ensures asyncEvents == old(asyncEvents) + if old(replState) == Prompt then [] else [PromptEvent]
    {
      if replState != Prompt {
        Send(PromptEvent);
        replState := Prompt;
      }
    }
  }

  // ----- Whom it concerns -----

  /** A command waits for a subprocess that reads no input; meanwhile code executed silently asks for a
      line, and while it waits a data frame is refreshed and the refresh jumps. */
  const MISLEADING: seq<Task> :=
    [Execute(true, [RunSubprocess(false, [Execute(false, [AskLine([Evaluate([JumpToTopLevel])])])])])]

  lemma ClientCanBeMisled()
    ensures PoliteTasks(MISLEADING, Prompt) && LoopMisleads(MISLEADING, Prompt)
  {
    var refresh := [Evaluate([JumpToTopLevel])];
    var silent := [Execute(false, [AskLine(refresh)])];
    assert LoopEnd(refresh, ReadLine) == Jumped;
    assert CodeEnd([AskLine(refresh)], ReplBusy) == JumpedFromPrompt;
    assert TaskMisleads(silent[0], ReplBusy);
    assert LoopMisleads(silent, ReplBusy);
    assert CodeMisleads([RunSubprocess(false, silent)], ReplBusy);
  }
}
