/**
 The Unix event loop: any number of threads push tasks under `pipeMutex` and wake the main
 thread through a pipe; the main thread polls two queues, blocks, and drains the pipe in an
 input handler. Every atomic action is one step; a run is any interleaving of steps.
 */
module EventLoop {

  type Task = nat

  datatype Who = Rpc(id: nat) | MainThread

  /** Who holds pipeMutex and what it does next. */
  datatype Section =
    | Free
    | Pushing(who: Who, task: Task, immediate: bool)
    | Testing(who: Who)  // pushed; about to test pipeFilled
    | Writing(who: Who)  // about to write the byte
    | Marking(who: Who)  // about to set pipeFilled
    | Handling           // held by the input handler on the main thread

  /** The activations on the main thread's stack, with the point each has reached. */
  datatype Frame =
    // runEventLoop
    | Poll                               // about to poll the queue
    | Drain(task: Task)                  // task in hand, running the immediate tasks first
    | DrainBody(task: Task, imm: Task)   // inside an immediate task
    | Body(task: Task)                   // inside the task
    | AfterBody                          // about to test doBreakEventLoop
    | Blocked                            // in R_checkActivity
    | Dispatch                           // in R_runHandlers
    // the input handler of the pipe
    | HandlerLock
    | HandlerTest
    | HandlerRead
    | HandlerClear
    | HandlerDrain
    | HandlerBody(imm: Task)
  {
    predicate InTask() { Body? || DrainBody? || HandlerBody? }
    predicate InHandler() {
      HandlerLock? || HandlerTest? || HandlerRead? || HandlerClear? || HandlerDrain? || HandlerBody?
    }
    predicate InLoop() { !InHandler() }
  }

  // The last frame of `stack` is the running one. The last five fields are history.
  datatype State = State(
    queue: seq<Task>, imm: seq<Task>, bytes: nat, filled: bool, section: Section, doBreak: bool, stack: seq<Frame>,
    pushedQ: seq<Task>, polledQ: seq<Task>, startedQ: seq<Task>, pushedI: seq<Task>, startedI: seq<Task>)
  {
    predicate Running(f: Frame) { |stack| > 0 && stack[|stack| - 1] == f }
    function Top(): Frame requires |stack| > 0 { stack[|stack| - 1] }
    function With(f: Frame): (s: State)
      requires |stack| > 0
      ensures |s.stack| == |stack| && s.Top() == f
    {
      this.(stack := stack[|stack| - 1 := f])
    }
    function Call(f: Frame): (s: State)
      ensures |s.stack| == |stack| + 1 && s.Top() == f
    {
      this.(stack := stack + [f])
    }
    function Return(): State
      requires |stack| > 0
    {
      this.(stack := stack[..|stack| - 1])
    }
    predicate MainPushes() {
      section == Testing(MainThread) || section == Writing(MainThread) || section == Marking(MainThread)
      || (section.Pushing? && section.who == MainThread)
    }
  }

  const START := State([], [], 0, false, Free, false, [Poll], [], [], [], [], [])

  /** eventLoopExecute, on any thread. */
  datatype PushStep = Acquire(who: Who, task: Task, immediate: bool) | Push | Test | Write | Mark

  /** runEventLoop and the tasks it runs. */
  datatype LoopStep =
    PollQueue | PollImmediate | Finish | Break | Nest | Wake | OtherActivity | Dispatched | TestBreak | ProcessInput

  /** The input handler of the pipe. */
  datatype HandlerStep = HandlerAcquire | HandlerCheck | ReadByte | Unmark | HandlerPoll

  datatype Step = Pushes(p: PushStep) | Loops(l: LoopStep) | Handles(h: HandlerStep)

  predicate PushEnabled(s: State, step: PushStep)
    requires |s.stack| > 0
  {
    match step
    case Acquire(who, _, _) => s.section == Free && (who == MainThread ==> s.Top().InTask())
    case Push => s.section.Pushing?
    case Test => s.section.Testing?
    case Write => s.section.Writing?
    case Mark => s.section.Marking?
  }

  /** nest says whether an immediate task may start a nested event loop. */
  predicate LoopEnabled(s: State, step: LoopStep, nest: bool)
    requires |s.stack| > 0
  {
    match step
    case PollQueue => s.Top() == Poll
    case PollImmediate => s.Top().Drain?
    case Finish => s.Top().InTask() && !s.MainPushes()
    case Break => s.Top().InTask() && !s.MainPushes()
    case Nest => (s.Top().Body? || (nest && s.Top().InTask())) && !s.MainPushes()
    case Wake => s.Top() == Blocked && s.bytes > 0
    case OtherActivity => s.Top() == Blocked
    case Dispatched => s.Top() == Dispatch
    case TestBreak => s.Top() == AfterBody
    case ProcessInput => s.Top().InTask() && !s.MainPushes() // R code looks at pending input
  }

  predicate HandlerEnabled(s: State, step: HandlerStep)
    requires |s.stack| > 0
  {
    match step
    case HandlerAcquire => s.Top() == HandlerLock && s.section == Free
    case HandlerCheck => s.Top() == HandlerTest
    case ReadByte => s.Top() == HandlerRead && s.bytes > 0
    case Unmark => s.Top() == HandlerClear
    case HandlerPoll => s.Top() == HandlerDrain
  }

  predicate Enabled(s: State, step: Step, nest: bool) {
    |s.stack| > 0 &&
    match step
    case Pushes(p) => PushEnabled(s, p)
    case Loops(l) => LoopEnabled(s, l, nest)
    case Handles(h) => HandlerEnabled(s, h)
  }

  function DoPush(s: State, step: PushStep): State
    requires |s.stack| > 0 && PushEnabled(s, step)
  {
    match step
    case Acquire(who, task, immediate) => s.(section := Pushing(who, task, immediate))
    case Push =>
      var who, t := s.section.who, s.section.task;
      if s.section.immediate then s.(imm := s.imm + [t], pushedI := s.pushedI + [t], section := Testing(who))
      else s.(queue := s.queue + [t], pushedQ := s.pushedQ + [t], section := Testing(who))
    case Test => if s.filled then s.(section := Free) else s.(section := Writing(s.section.who))
    case Write => s.(bytes := s.bytes + 1, section := Marking(s.section.who))
    case Mark => s.(filled := true, section := Free)
  }

  /** Takes the next task from the queue, or blocks. */
  function Take(s: State): State
    requires |s.stack| > 0
  {
    if s.queue == [] then s.With(Blocked)
    else s.With(Drain(s.queue[0])).(queue := s.queue[1..], polledQ := s.polledQ + [s.queue[0]])
  }

  function DoLoop(s: State, step: LoopStep, nest: bool): State
    requires |s.stack| > 0 && LoopEnabled(s, step, nest)
  {
    match step
    case PollQueue => Take(if s.queue == [] then s else s.(doBreak := false))
    case PollImmediate =>
      var t := s.Top().task;
      if s.imm == [] then s.With(Body(t)).(startedQ := s.startedQ + [t])
      else s.With(DrainBody(t, s.imm[0])).(imm := s.imm[1..], startedI := s.startedI + [s.imm[0]])
    case Finish =>
      s.With(match s.Top()
             case Body(_) => AfterBody
             case DrainBody(t, _) => Drain(t)
             case _ => HandlerDrain)
    case Break => s.(doBreak := true)
    case Nest => s.Call(Poll)
    case Wake => s.With(Dispatch).Call(HandlerLock)
    case OtherActivity => s.With(Dispatch)
    case Dispatched => s.With(Poll)
    case TestBreak =>
      if s.doBreak then
        // the outermost loop is called again at once by mainLoop
        (if |s.stack| == 1 then s.With(Poll) else s.Return()).(doBreak := false)
      else Take(s)
    case ProcessInput => s.Call(HandlerLock)
  }

  function DoHandler(s: State, step: HandlerStep): State
    requires |s.stack| > 0 && HandlerEnabled(s, step)
  {
    match step
    case HandlerAcquire => s.With(HandlerTest).(section := Handling)
    case HandlerCheck => if s.filled then s.With(HandlerRead) else s.With(HandlerDrain).(section := Free)
    case ReadByte => s.With(HandlerClear).(bytes := s.bytes - 1)
    case Unmark => s.With(HandlerDrain).(filled := false, section := Free)
    case HandlerPoll =>
      if s.imm == [] then s.Return()
      else s.With(HandlerBody(s.imm[0])).(imm := s.imm[1..], startedI := s.startedI + [s.imm[0]])
  }

  function Do(s: State, step: Step, nest: bool): State
    requires Enabled(s, step, nest)
  {
    match step
    case Pushes(p) => DoPush(s, p)
    case Loops(l) => DoLoop(s, l, nest)
    case Handles(h) => DoHandler(s, h)
  }

  predicate ValidRun(s: State, run: seq<Step>, nest: bool)
    decreases |run|
  {
    run == [] || (Enabled(s, run[0], nest) && ValidRun(Do(s, run[0], nest), run[1..], nest))
  }

  function After(s: State, run: seq<Step>, nest: bool): State
    requires ValidRun(s, run, nest)
    decreases |run|
  {
    if run == [] then s else After(Do(s, run[0], nest), run[1..], nest)
  }

  // ----- The invariant -----

  predicate Above(below: Frame, above: Frame, nest: bool) {
    match below
    case Body(_) => true
    case DrainBody(_, _) => above.InHandler() || nest
    case HandlerBody(_) => above.InHandler() || nest
    case Dispatch => above.InHandler()
    case _ => false
  }

  /** Only task bodies and R_runHandlers have activations above them. */
  ghost predicate Chain(stack: seq<Frame>, nest: bool) {
    && |stack| > 0 && stack[0].InLoop()
    && (forall i {:trigger stack[i]} :: 0 <= i < |stack| - 1 ==> Above(stack[i], stack[i + 1], nest))
  }

  ghost predicate StackOk(s: State, nest: bool) {
    Chain(s.stack, nest) && SectionOk(s)
  }

  /** The main thread pushes only from a task, and handles only in the handler. */
  predicate SectionOk(s: State)
    requires |s.stack| > 0
  {
    && (s.MainPushes() ==> s.Top().InTask())
    && (s.section == Handling <==> s.Top().HandlerTest? || s.Top().HandlerRead? || s.Top().HandlerClear?)
  }

  /** pipeFilled says exactly whether one byte is in the pipe, up to the step its owner is in. */
  predicate PipeOk(s: State)
    requires |s.stack| > 0
  {
    match s.section
    case Writing(_) => !s.filled && s.bytes == 0
    case Marking(_) => !s.filled && s.bytes == 1
    case Handling =>
      if s.Top().HandlerRead? then s.filled && s.bytes == 1
      else if s.Top().HandlerClear? then s.filled && s.bytes == 0
      else s.bytes == if s.filled then 1 else 0
    case _ => s.bytes == if s.filled then 1 else 0
  }

  /** A byte is in the pipe, or a thread holding pipeMutex is about to write it. */
  predicate Signalled(s: State) {
    s.bytes > 0 || s.section.Testing? || s.section.Writing?
  }

  /** A handler has taken the byte out and has not finished draining. */
  ghost predicate Draining(s: State) {
    exists i :: 0 <= i < |s.stack| && (s.stack[i].HandlerClear? || s.stack[i].HandlerDrain? || s.stack[i].HandlerBody?)
  }

  ghost predicate SignalOk(s: State) {
    && (|s.stack| > 0 && s.Top() == Blocked && s.queue != [] ==> Signalled(s))
    && (s.imm != [] ==> Signalled(s) || Draining(s))
  }

  function HandOf(f: Frame): seq<Task> {
    if f.Drain? || f.DrainBody? then [f.task] else []
  }

  /** The queue tasks that are polled but not started, from the outermost loop inwards. */
  function InHand(stack: seq<Frame>): seq<Task> {
    if stack == [] then [] else InHand(stack[..|stack| - 1]) + HandOf(stack[|stack| - 1])
  }

  ghost predicate HistoryOk(s: State) {
    && s.pushedQ == s.polledQ + s.queue
    && s.pushedI == s.startedI + s.imm
    && Accounted(s)
  }

  ghost predicate Accounted(s: State) {
    multiset(s.polledQ) == multiset(s.startedQ) + multiset(InHand(s.stack))
  }

  ghost predicate Inv(s: State, nest: bool) {
    StackOk(s, nest) && PipeOk(s) && SignalOk(s) && HistoryOk(s)
  }

  lemma ChainWith(stack: seq<Frame>, f: Frame, nest: bool)
    requires Chain(stack, nest) && f.InHandler() == stack[|stack| - 1].InHandler()
    ensures Chain(stack[|stack| - 1 := f], nest)
  {
  }

  lemma ChainCall(stack: seq<Frame>, f: Frame, nest: bool)
    requires Chain(stack, nest) && Above(stack[|stack| - 1], f, nest)
    ensures Chain(stack + [f], nest)
  {
  }

  lemma ChainReturn(stack: seq<Frame>, nest: bool)
    requires Chain(stack, nest) && |stack| > 1
    ensures Chain(stack[..|stack| - 1], nest)
  {
  }

  /** A step leaves the stack, replaces its top, calls or returns. */
  ghost predicate Shape(s: State, s': State, nest: bool) {
    var n := |s.stack|;
    && n > 0
    && (|| s'.stack == s.stack
        || (|s'.stack| == n && s'.stack == s.stack[n - 1 := s'.Top()] && s'.Top().InHandler() == s.Top().InHandler())
        || (|s'.stack| == n + 1 && s'.stack == s.stack + [s'.Top()] && Above(s.Top(), s'.Top(), nest))
        || (n > 1 && s'.stack == s.stack[..n - 1])
        || (s.Top() == Blocked && s'.stack == s.stack[n - 1 := Dispatch] + [HandlerLock]))
  }

  lemma ShapeKeepsChain(s: State, s': State, nest: bool)
    requires Chain(s.stack, nest) && Shape(s, s', nest)
    ensures Chain(s'.stack, nest)
  {
    var n := |s.stack|;
    if |s'.stack| == n && s'.stack != s.stack {
      ChainWith(s.stack, s'.Top(), nest);
    } else if |s'.stack| == n + 1 && s'.stack == s.stack + [s'.Top()] && Above(s.Top(), s'.Top(), nest) {
      ChainCall(s.stack, s'.Top(), nest);
    } else if |s'.stack| < n {
      ChainReturn(s.stack, nest);
    } else if |s'.stack| > n {
      ChainWith(s.stack, Dispatch, nest);
      ChainCall(s.stack[n - 1 := Dispatch], HandlerLock, nest);
    }
  }

  lemma HandlerIsCalled(s: State, nest: bool)
    requires Chain(s.stack, nest)
    ensures s.Top().InHandler() ==> |s.stack| > 1
    ensures |s.stack| > 1 ==> s.stack[|s.stack| - 2].InTask() || s.stack[|s.stack| - 2].Dispatch?
    ensures |s.stack| > 1 && s.stack[|s.stack| - 2].Dispatch? ==> s.Top().InHandler()
  {
    if |s.stack| > 1 {
      assert Above(s.stack[|s.stack| - 2], s.stack[|s.stack| - 1], nest);
    }
  }

  lemma PushKeepsInv(s: State, step: PushStep, nest: bool)
    requires Inv(s, nest) && PushEnabled(s, step)
    ensures Inv(DoPush(s, step), nest)
  {
    PushKeepsRest(s, step, nest);
    PushKeepsSignal(s, step);
    hide Chain, PipeOk, SectionOk, SignalOk, HistoryOk, DoPush;
  }

  lemma PushKeepsRest(s: State, step: PushStep, nest: bool)
    requires StackOk(s, nest) && PipeOk(s) && HistoryOk(s) && PushEnabled(s, step)
    ensures var s' := DoPush(s, step); s'.stack == s.stack && SectionOk(s') && PipeOk(s') && HistoryOk(s')
  {
    hide Chain, InHand;
  }

  lemma PushKeepsSignal(s: State, step: PushStep)
    requires |s.stack| > 0 && PipeOk(s) && SignalOk(s) && PushEnabled(s, step)
    ensures SignalOk(DoPush(s, step))
  {
    assert Draining(s) ==> Draining(DoPush(s, step));
  }

  lemma LoopShape(s: State, step: LoopStep, nest: bool)
    requires |s.stack| > 0 && LoopEnabled(s, step, nest)
    ensures Shape(s, DoLoop(s, step, nest), nest)
  {
    hide Shape, DoLoop;
    match step {
      case Wake => CallShape(s, step, nest);
      case Nest => CallShape(s, step, nest);
      case ProcessInput => CallShape(s, step, nest);
      case TestBreak => TestBreakShape(s, nest);
      case _ => TopShape(s, step, nest);
    }
  }

  lemma CallShape(s: State, step: LoopStep, nest: bool)
    requires |s.stack| > 0 && LoopEnabled(s, step, nest) && (step.Wake? || step.Nest? || step.ProcessInput?)
    ensures Shape(s, DoLoop(s, step, nest), nest)
  {
  }

  lemma TopShape(s: State, step: LoopStep, nest: bool)
    requires |s.stack| > 0 && LoopEnabled(s, step, nest)
    requires !step.Wake? && !step.Nest? && !step.ProcessInput? && !step.TestBreak?
    ensures Shape(s, DoLoop(s, step, nest), nest)
  {
    assert DoLoop(s, step, nest).stack == s.stack[|s.stack| - 1 := DoLoop(s, step, nest).Top()];
  }

  lemma TestBreakShape(s: State, nest: bool)
    requires |s.stack| > 0 && s.Top() == AfterBody
    ensures Shape(s, DoLoop(s, TestBreak, nest), nest)
  {
  }

  lemma LoopKeepsSection(s: State, step: LoopStep, nest: bool)
    requires StackOk(s, nest) && LoopEnabled(s, step, nest)
    ensures |DoLoop(s, step, nest).stack| > 0 && SectionOk(DoLoop(s, step, nest))
  {
    HandlerIsCalled(s, nest);
    hide Chain;
    if step.TestBreak? {
      ReturnKeepsSection(s, nest);
    } else {
      StayKeepsSection(s, step, nest);
    }
  }

  lemma ReturnKeepsSection(s: State, nest: bool)
    requires |s.stack| > 0 && SectionOk(s) && s.Top() == AfterBody
    requires |s.stack| > 1 ==> s.stack[|s.stack| - 2].InTask() || s.stack[|s.stack| - 2].Dispatch?
    ensures |DoLoop(s, TestBreak, nest).stack| > 0 && SectionOk(DoLoop(s, TestBreak, nest))
  {
  }

  lemma StayKeepsSection(s: State, step: LoopStep, nest: bool)
    requires |s.stack| > 0 && SectionOk(s) && LoopEnabled(s, step, nest) && !step.TestBreak?
    ensures |DoLoop(s, step, nest).stack| > 0 && SectionOk(DoLoop(s, step, nest))
  {
  }

  lemma LoopKeepsStack(s: State, step: LoopStep, nest: bool)
    requires StackOk(s, nest) && LoopEnabled(s, step, nest)
    ensures Shape(s, DoLoop(s, step, nest), nest) && StackOk(DoLoop(s, step, nest), nest)
  {
    hide DoLoop, LoopEnabled, SectionOk, Shape;
    LoopShape(s, step, nest);
    LoopKeepsSection(s, step, nest);
    ShapeKeepsChain(s, DoLoop(s, step, nest), nest);
  }

  lemma LoopKeepsPipe(s: State, step: LoopStep, nest: bool)
    requires StackOk(s, nest) && PipeOk(s) && LoopEnabled(s, step, nest)
    ensures |DoLoop(s, step, nest).stack| > 0 && PipeOk(DoLoop(s, step, nest))
  {
    HandlerIsCalled(s, nest);
    hide Chain;
  }

  lemma HandlerShape(s: State, step: HandlerStep, nest: bool)
    requires StackOk(s, nest) && HandlerEnabled(s, step)
    ensures Shape(s, DoHandler(s, step), nest)
  {
    HandlerIsCalled(s, nest);
    hide Chain;
  }

  lemma HandlerKeepsSection(s: State, step: HandlerStep, nest: bool)
    requires StackOk(s, nest) && HandlerEnabled(s, step)
    ensures |DoHandler(s, step).stack| > 0 && SectionOk(DoHandler(s, step))
  {
    HandlerIsCalled(s, nest);
    hide Chain;
  }

  lemma HandlerKeepsPipe(s: State, step: HandlerStep, nest: bool)
    requires StackOk(s, nest) && PipeOk(s) && HandlerEnabled(s, step)
    ensures |DoHandler(s, step).stack| > 0 && PipeOk(DoHandler(s, step))
  {
    HandlerIsCalled(s, nest);
    hide Chain;
  }

  lemma HandlerKeepsStack(s: State, step: HandlerStep, nest: bool)
    requires StackOk(s, nest) && PipeOk(s) && HandlerEnabled(s, step)
    ensures StackOk(DoHandler(s, step), nest) && PipeOk(DoHandler(s, step))
  {
    hide DoHandler, HandlerEnabled, SectionOk, PipeOk, Shape;
    HandlerShape(s, step, nest);
    HandlerKeepsSection(s, step, nest);
    HandlerKeepsPipe(s, step, nest);
    ShapeKeepsChain(s, DoHandler(s, step), nest);
  }

  /** A handler below the top stays where it is. */
  lemma DrainingStays(s: State, s': State, nest: bool)
    requires Shape(s, s', nest) && Draining(s)
    ensures Draining(s') || s.Top().HandlerClear? || s.Top().HandlerDrain? || s.Top().HandlerBody?
  {
    var n := |s.stack|;
    var i :| 0 <= i < n && (s.stack[i].HandlerClear? || s.stack[i].HandlerDrain? || s.stack[i].HandlerBody?);
    if i < n - 1 {
      assert s'.stack[i] == s.stack[i];
    }
  }

  /** A loop blocks only on an empty queue, and what it does leaves the byte alone. */
  lemma LoopKeepsQueueSignal(s: State, step: LoopStep, nest: bool)
    requires StackOk(s, nest) && SignalOk(s) && LoopEnabled(s, step, nest)
    ensures
      var s' := DoLoop(s, step, nest);
      && |s'.stack| > 0 && (Signalled(s') <==> Signalled(s))
      && (s'.Top() == Blocked && s'.queue != [] ==> Signalled(s'))
      && (s'.imm != [] ==> s.imm != [])
  {
    HandlerIsCalled(s, nest);
    hide Chain, Draining;
  }

  lemma LoopKeepsDraining(s: State, step: LoopStep, nest: bool)
    requires |s.stack| > 0 && LoopEnabled(s, step, nest) && Draining(s)
    ensures Draining(DoLoop(s, step, nest))
  {
    var s' := DoLoop(s, step, nest);
    var n := |s.stack|;
    LoopShape(s, step, nest);
    DrainingStays(s, s', nest);
    hide Shape;
    assert s.Top().HandlerBody? ==> s'.stack[n - 1].HandlerBody? || s'.stack[n - 1].HandlerDrain?;
  }

  lemma LoopKeepsSignal(s: State, step: LoopStep, nest: bool)
    requires StackOk(s, nest) && SignalOk(s) && LoopEnabled(s, step, nest)
    ensures SignalOk(DoLoop(s, step, nest))
  {
    assert |s.stack| > 0;
    hide Chain, DoLoop, LoopEnabled, Draining, Signalled, SectionOk;
    LoopKeepsQueueSignal(s, step, nest);
    if Draining(s) {
      LoopKeepsDraining(s, step, nest);
    }
  }

  lemma HandlerKeepsSignal(s: State, step: HandlerStep, nest: bool)
    requires StackOk(s, nest) && PipeOk(s) && SignalOk(s) && HandlerEnabled(s, step)
    ensures SignalOk(DoHandler(s, step))
  {
    var s' := DoHandler(s, step);
    var n := |s.stack|;
    HandlerIsCalled(s, nest);
    HandlerShape(s, step, nest);
    hide Chain, Shape;
    if step.ReadByte? || step.Unmark? || (step.HandlerPoll? && s.imm != []) {
      assert s'.stack[n - 1].HandlerClear? || s'.stack[n - 1].HandlerDrain? || s'.stack[n - 1].HandlerBody?;
    } else if Draining(s) {
      DrainingStays(s, s', nest);
    }
  }

  lemma InHandPush(stack: seq<Frame>, f: Frame)
    ensures InHand(stack + [f]) == InHand(stack) + HandOf(f)
  {
    assert (stack + [f])[..|stack|] == stack;
  }

  /** Only the top frame's task comes and goes. */
  ghost predicate HandsFit(s: State, s': State)
    requires |s.stack| > 0
  {
    var base := InHand(s.stack[..|s.stack| - 1]);
    && InHand(s.stack) == base + HandOf(s.Top())
    && (|s'.stack| == |s.stack| ==> InHand(s'.stack) == base + HandOf(s'.Top()))
    && (|s'.stack| < |s.stack| ==> InHand(s'.stack) == base)
    && (|s'.stack| > |s.stack| && HandOf(s'.Top()) == [] ==> InHand(s'.stack) == InHand(s.stack))
  }

  /** What a step does to the tasks in hand. */
  lemma InHandShape(s: State, s': State, nest: bool)
    requires Shape(s, s', nest)
    ensures HandsFit(s, s')
  {
    var n := |s.stack|;
    var base := s.stack[..n - 1];
    assert s.stack == base + [s.Top()];
    InHandPush(base, s.Top());
    if |s'.stack| == n {
      assert s'.stack == base + [s'.Top()];
      InHandPush(base, s'.Top());
    } else if |s'.stack| > n {
      assert s'.stack == base + [s'.stack[n - 1]] + [s'.Top()];
      InHandPush(base, s'.stack[n - 1]);
      InHandPush(base + [s'.stack[n - 1]], s'.Top());
    }
  }

  /** A step polls one task into the hand, starts the one in hand, or touches neither list. */
  ghost predicate Moves(s: State, s': State)
    requires |s.stack| > 0
  {
    var base, hand, hand' := InHand(s.stack[..|s.stack| - 1]), InHand(s.stack), InHand(s'.stack);
    || (s'.polledQ == s.polledQ && s'.startedQ == s.startedQ && hand' == hand)
    || (exists t :: s'.polledQ == s.polledQ + [t] && s'.startedQ == s.startedQ && hand == base && hand' == base + [t])
    || (exists t :: s'.polledQ == s.polledQ && s'.startedQ == s.startedQ + [t] && hand == base + [t] && hand' == base)
  }

  lemma MovesKeepAccount(s: State, s': State)
    requires |s.stack| > 0 && Moves(s, s') && Accounted(s)
    ensures Accounted(s')
  {
  }

  lemma LoopMoves(s: State, step: LoopStep, nest: bool)
    requires |s.stack| > 0 && LoopEnabled(s, step, nest)
    ensures Shape(s, DoLoop(s, step, nest), nest) && Moves(s, DoLoop(s, step, nest))
  {
    LoopShape(s, step, nest);
    InHandShape(s, DoLoop(s, step, nest), nest);
    hide InHand, Shape, Moves, DoLoop;
    match step {
      case PollQueue => QueueMoves(s, step, nest);
      case TestBreak => QueueMoves(s, step, nest);
      case PollImmediate => StartMoves(s, nest);
      case _ => OthersMoveNothing(s, step, nest);
    }
  }

  lemma QueueMoves(s: State, step: LoopStep, nest: bool)
    requires |s.stack| > 0 && LoopEnabled(s, step, nest) && (step.PollQueue? || step.TestBreak?)
    requires HandsFit(s, DoLoop(s, step, nest))
    ensures Moves(s, DoLoop(s, step, nest))
  {
    var s' := DoLoop(s, step, nest);
    var base := InHand(s.stack[..|s.stack| - 1]);
    hide InHand;
    assert base + [] == base;
    if |s'.polledQ| > |s.polledQ| {
      assert s'.polledQ == s.polledQ + [s.queue[0]];
    }
  }

  lemma StartMoves(s: State, nest: bool)
    requires |s.stack| > 0 && s.Top().Drain? && HandsFit(s, DoLoop(s, PollImmediate, nest))
    ensures Moves(s, DoLoop(s, PollImmediate, nest))
  {
    var s' := DoLoop(s, PollImmediate, nest);
    var base := InHand(s.stack[..|s.stack| - 1]);
    hide InHand;
    assert base + [] == base;
    if s.imm == [] {
      assert s'.startedQ == s.startedQ + [s.Top().task];
    }
  }

  lemma OthersMoveNothing(s: State, step: LoopStep, nest: bool)
    requires |s.stack| > 0 && LoopEnabled(s, step, nest) && !step.PollQueue? && !step.TestBreak? && !step.PollImmediate?
    requires HandsFit(s, DoLoop(s, step, nest))
    ensures Moves(s, DoLoop(s, step, nest))
  {
    var base := InHand(s.stack[..|s.stack| - 1]);
    hide InHand;
    assert base + [] == base;
  }

  lemma HandlerMoves(s: State, step: HandlerStep, nest: bool)
    requires StackOk(s, nest) && HandlerEnabled(s, step)
    ensures Moves(s, DoHandler(s, step))
  {
    HandlerShape(s, step, nest);
    InHandShape(s, DoHandler(s, step), nest);
    hide InHand, Chain, Shape, DoHandler, Moves, SectionOk;
    HandlersMoveNothing(s, step);
  }

  lemma HandlersMoveNothing(s: State, step: HandlerStep)
    requires |s.stack| > 0 && HandlerEnabled(s, step) && HandsFit(s, DoHandler(s, step))
    ensures Moves(s, DoHandler(s, step))
  {
    var base := InHand(s.stack[..|s.stack| - 1]);
    hide InHand;
    assert base + [] == base;
  }

  lemma HeadAndTail(s: State)
    ensures s.queue != [] ==> s.polledQ + s.queue == s.polledQ + [s.queue[0]] + s.queue[1..]
    ensures s.imm != [] ==> s.startedI + s.imm == s.startedI + [s.imm[0]] + s.imm[1..]
  {
  }

  lemma LoopKeepsHistory(s: State, step: LoopStep, nest: bool)
    requires StackOk(s, nest) && HistoryOk(s) && LoopEnabled(s, step, nest)
    ensures HistoryOk(DoLoop(s, step, nest))
  {
    LoopMoves(s, step, nest);
    MovesKeepAccount(s, DoLoop(s, step, nest));
    HeadAndTail(s);
    hide InHand, Accounted, Moves, Shape, StackOk;
  }

  lemma HandlerKeepsHistory(s: State, step: HandlerStep, nest: bool)
    requires StackOk(s, nest) && HistoryOk(s) && HandlerEnabled(s, step)
    ensures HistoryOk(DoHandler(s, step))
  {
    HandlerMoves(s, step, nest);
    MovesKeepAccount(s, DoHandler(s, step));
    HeadAndTail(s);
    hide InHand, Accounted, Moves, Shape, StackOk;
  }

  lemma StepKeepsInv(s: State, step: Step, nest: bool)
    requires Inv(s, nest) && Enabled(s, step, nest)
    ensures Inv(Do(s, step, nest), nest)
  {
    match step {
      case Pushes(p) =>
        PushKeepsInv(s, p, nest);
      case Loops(l) =>
        LoopKeepsStack(s, l, nest);
        LoopKeepsPipe(s, l, nest);
        LoopKeepsSignal(s, l, nest);
        LoopKeepsHistory(s, l, nest);
      case Handles(h) =>
        HandlerKeepsStack(s, h, nest);
        HandlerKeepsSignal(s, h, nest);
        HandlerKeepsHistory(s, h, nest);
    }
  }

  lemma {:induction false} RunKeepsInv(s: State, run: seq<Step>, nest: bool)
    requires Inv(s, nest) && ValidRun(s, run, nest)
    ensures Inv(After(s, run, nest), nest)
    decreases |run|
  {
    if run != [] {
      StepKeepsInv(s, run[0], nest);
      RunKeepsInv(Do(s, run[0], nest), run[1..], nest);
    }
  }
}
