/** What the event loop guarantees over all interleavings. */
module EventLoopLaws {
  import opened EventLoop

  lemma StartIsFine(nest: bool)
    ensures Inv(START, nest)
  {
    assert InHand(START.stack) == InHand([]) + HandOf(Poll) by { assert START.stack[..0] == []; }
  }

  /** The pipe holds at most one byte; with the mutex free, pipeFilled says whether it does; and
      the handler never blocks in its read. */
  lemma PipeProtocol(run: seq<Step>, nest: bool)
    requires ValidRun(START, run, nest)
    ensures
      var s := After(START, run, nest);
      && s.bytes <= 1
      && (s.section == Free ==> (s.filled <==> s.bytes == 1))
      && |s.stack| > 0
      && (s.Top() == HandlerRead ==> s.bytes == 1)
  {
    StartIsFine(nest);
    RunKeepsInv(START, run, nest);
  }

  /** The main thread sleeps although a task is queued, and nothing will wake it. */
  ghost predicate Lost(s: State) {
    |s.stack| > 0 && s.Top() == Blocked && (s.queue != [] || s.imm != []) && !Signalled(s)
  }

  /** Without nested loops in immediate tasks, only task bodies lie below a running loop. */
  lemma {:induction false} LoopsLieOnBodies(stack: seq<Frame>, i: nat)
    requires Chain(stack, false) && stack[|stack| - 1].InLoop() && i < |stack|
    ensures stack[i].InLoop() && (i < |stack| - 1 ==> stack[i].Body?)
    decreases |stack| - i
  {
    if i < |stack| - 1 {
      LoopsLieOnBodies(stack, i + 1);
      assert Above(stack[i], stack[i + 1], false);
    }
  }

  lemma NothingIsLost(run: seq<Step>)
    requires ValidRun(START, run, false)
    ensures !Lost(After(START, run, false))
  {
    StartIsFine(false);
    RunKeepsInv(START, run, false);
    hide ValidRun, After;
    InvNotLost(After(START, run, false));
  }

  lemma InvNotLost(s: State)
    requires Inv(s, false)
    ensures !Lost(s)
  {
    hide PipeOk, HistoryOk, Signalled, SectionOk;
    if Draining(s) && s.Top() == Blocked {
      var i: nat :| i < |s.stack| && (s.stack[i].HandlerClear? || s.stack[i].HandlerDrain? || s.stack[i].HandlerBody?);
      LoopsLieOnBodies(s.stack, i);
    }
  }

  lemma RunCons(s: State, step: Step, rest: seq<Step>, nest: bool)
    requires Enabled(s, step, nest) && ValidRun(Do(s, step, nest), rest, nest)
    ensures ValidRun(s, [step] + rest, nest) && After(s, [step] + rest, nest) == After(Do(s, step, nest), rest, nest)
  {
    assert ([step] + rest)[1..] == rest;
  }

  lemma RunOne(s: State, step: Step, nest: bool)
    requires Enabled(s, step, nest)
    ensures ValidRun(s, [step], nest) && After(s, [step], nest) == Do(s, step, nest)
  {
  }

  lemma RunAppend(s: State, first: seq<Step>, rest: seq<Step>, nest: bool)
    requires ValidRun(s, first, nest) && ValidRun(After(s, first, nest), rest, nest)
    ensures ValidRun(s, first + rest, nest) && After(s, first + rest, nest) == After(After(s, first, nest), rest, nest)
    decreases |first|
  {
    hide Do, Enabled;
    if first == [] {
      assert first + rest == rest;
    } else {
      assert (first + rest)[1..] == first[1..] + rest;
      RunAppend(Do(s, first[0], nest), first[1..], rest, nest);
    }
  }

  /** The step leads to s', where the rest of the run starts. */
  lemma RunStep(s: State, step: Step, s': State, rest: seq<Step>, nest: bool) returns (run: seq<Step>)
    requires Enabled(s, step, nest) && Do(s, step, nest) == s' && ValidRun(s', rest, nest)
    ensures ValidRun(s, run, nest) && After(s, run, nest) == After(s', rest, nest)
  {
    run := [step] + rest;
    RunCons(s, step, rest, nest);
  }

  function Pushed(s: State, task: Task, immediate: bool): State {
    (if immediate then s.(imm := s.imm + [task], pushedI := s.pushedI + [task])
     else s.(queue := s.queue + [task], pushedQ := s.pushedQ + [task]))
    .(filled := true, bytes := if s.filled then s.bytes else s.bytes + 1)
  }

  /** A thread pushes a task while the mutex is free. */
  lemma PushRun(s: State, task: Task, immediate: bool, nest: bool) returns (run: seq<Step>)
    requires |s.stack| > 0 && s.section == Free
    ensures ValidRun(s, run, nest) && After(s, run, nest) == Pushed(s, task, immediate)
  {
    var s1 := s.(section := Pushing(Rpc(0), task, immediate));
    var s2 := Pushed(s, task, immediate).(section := Testing(Rpc(0)), filled := s.filled, bytes := s.bytes);
    run := TestRun(s2, nest);
    hide ValidRun, After;
    run := RunStep(s1, Pushes(Push), s2, run, nest);
    run := RunStep(s, Pushes(Acquire(Rpc(0), task, immediate)), s1, run, nest);
  }

  lemma TestRun(s: State, nest: bool) returns (run: seq<Step>)
    requires |s.stack| > 0 && s.section == Testing(Rpc(0))
    ensures ValidRun(s, run, nest)
    ensures After(s, run, nest) ==
      s.(section := Free, filled := true, bytes := if s.filled then s.bytes else s.bytes + 1)
  {
    if s.filled {
      run := [Pushes(Test)];
      RunOne(s, Pushes(Test), nest);
    } else {
      var s1 := s.(section := Writing(Rpc(0)));
      var s2 := s.(section := Marking(Rpc(0)), bytes := s.bytes + 1);
      run := [Pushes(Mark)];
      RunOne(s2, Pushes(Mark), nest);
      hide ValidRun, After;
      run := RunStep(s1, Pushes(Write), s2, run, nest);
      run := RunStep(s, Pushes(Test), s1, run, nest);
    }
  }

  /** The handler step leaves the frames below alone. */
  lemma HandlerStepOn(s: State, base: seq<Frame>, f: Frame, step: HandlerStep, nest: bool, g: Frame)
    requires s.stack == base + [f] && HandlerEnabled(s, step) && DoHandler(s, step).stack == s.With(g).stack
    ensures Enabled(s, Handles(step), nest)
    ensures Do(s, Handles(step), nest) == DoHandler(s, step).(stack := base + [g])
  {
    assert (base + [f])[|base| := g] == base + [g];
  }

  /** The handler was called on the frames `base`; it empties the pipe and starts the first immediate task. */
  lemma HandlerRun(s: State, base: seq<Frame>, nest: bool) returns (run: seq<Step>)
    requires s.stack == base + [HandlerLock] && s.section == Free && s.bytes == 1 && s.filled && s.imm != []
    ensures ValidRun(s, run, nest)
    ensures After(s, run, nest) ==
      s.(stack := base + [HandlerBody(s.imm[0])], bytes := 0, filled := false, imm := s.imm[1..],
         startedI := s.startedI + [s.imm[0]])
  {
    var s2 := s.(stack := base + [HandlerTest], section := Handling);
    var s3 := s2.(stack := base + [HandlerRead]);
    var s4 := s3.(stack := base + [HandlerClear], bytes := 0);
    var s5 := s4.(stack := base + [HandlerDrain], filled := false, section := Free);
    HandlerStepOn(s, base, HandlerLock, HandlerAcquire, nest, HandlerTest);
    HandlerStepOn(s2, base, HandlerTest, HandlerCheck, nest, HandlerRead);
    HandlerStepOn(s3, base, HandlerRead, ReadByte, nest, HandlerClear);
    HandlerStepOn(s4, base, HandlerClear, Unmark, nest, HandlerDrain);
    HandlerStepOn(s5, base, HandlerDrain, HandlerPoll, nest, HandlerBody(s.imm[0]));
    RunOne(s5, Handles(HandlerPoll), nest);
    hide ValidRun, After, Enabled, Do;
    run := [Handles(HandlerPoll)];
    run := RunStep(s4, Handles(Unmark), s5, run, nest);
    run := RunStep(s3, Handles(ReadByte), s4, run, nest);
    run := RunStep(s2, Handles(HandlerCheck), s3, run, nest);
    run := RunStep(s, Handles(HandlerAcquire), s2, run, nest);
  }

  /** One immediate task starts a nested loop while a second one waits: the byte is gone. */
  lemma NestedLoopLosesWakeUp() returns (run: seq<Step>)
    ensures ValidRun(START, run, true) && Lost(After(START, run, true))
  {
    hide ValidRun, After;
    var s0 := START.(stack := [Blocked]);
    var s1 := s0.(imm := [1], pushedI := [1], filled := true, bytes := 1);
    var s2 := s0.(imm := [1, 2], pushedI := [1, 2], filled := true, bytes := 1);
    assert Pushed(s0, 1, true) == s1 && Pushed(s1, 2, true) == s2;
    assert Do(START, Loops(PollQueue), true) == s0;
    var one := PushRun(s0, 1, true, true);
    var two := PushRun(s1, 2, true, true);
    run := WakeAndNest(s2);
    RunAppend(s1, two, run, true);
    RunAppend(s0, one, two + run, true);
    run := RunStep(START, Loops(PollQueue), s0, one + (two + run), true);
  }

  lemma WakeAndNest(s: State) returns (run: seq<Step>)
    requires s.stack == [Blocked] && s.section == Free && s.bytes == 1 && s.filled && s.imm == [1, 2] && s.queue == []
    ensures ValidRun(s, run, true) && Lost(After(s, run, true))
  {
    hide ValidRun, After;
    var base := [Dispatch];
    var s1 := s.(stack := base + [HandlerLock]);
    var s2 := s1.(stack := base + [HandlerBody(1)], bytes := 0, filled := false, imm := s.imm[1..],
                  startedI := s.startedI + [1]);
    assert Do(s, Loops(Wake), true) == s1;
    var handle := HandlerRun(s1, base, true);
    run := NestAndBlock(s2);
    RunAppend(s1, handle, run, true);
    run := RunStep(s, Loops(Wake), s1, handle + run, true);
  }

  lemma NestAndBlock(s: State) returns (run: seq<Step>)
    requires |s.stack| > 0 && s.Top().HandlerBody? && s.section == Free && s.bytes == 0 && s.imm != [] && s.queue == []
    ensures ValidRun(s, run, true) && Lost(After(s, run, true))
  {
    var s1 := s.Call(Poll);
    RunOne(s1, Loops(PollQueue), true);
    assert Lost(Do(s1, Loops(PollQueue), true));
    hide ValidRun, After, Lost;
    run := RunStep(s, Loops(Nest), s1, [Loops(PollQueue)], true);
  }

  ghost predicate CanLoseWakeUp(nest: bool) {
    exists run :: ValidRun(START, run, nest) && Lost(After(START, run, nest))
  }

  /** A wake-up can be lost exactly when immediate tasks may start a nested event loop. */
  lemma WakeUpGuarantee(nest: bool)
    ensures CanLoseWakeUp(nest) <==> nest
  {
    if nest {
      var run := NestedLoopLosesWakeUp();
    } else if CanLoseWakeUp(nest) {
      var run :| ValidRun(START, run, false) && Lost(After(START, run, false));
      NothingIsLost(run);
    }
  }

  /** Even with nested loops, a task in the ordinary queue always has its wake-up. */
  lemma OrdinaryQueueIsSafe(run: seq<Step>, nest: bool)
    requires ValidRun(START, run, nest)
    ensures var s := After(START, run, nest);
      |s.stack| > 0 && (s.Top() == Blocked && s.queue != [] ==> Signalled(s))
  {
    StartIsFine(nest);
    RunKeepsInv(START, run, nest);
  }

  // ----- The order in which tasks start -----

  /** Whatever nests, no task is lost or started twice, and immediate tasks start in push order. */
  lemma TasksAreConserved(run: seq<Step>, nest: bool)
    requires ValidRun(START, run, nest)
    ensures
      var s := After(START, run, nest);
      && s.startedI <= s.pushedI && s.pushedI[|s.startedI|..] == s.imm
      && s.polledQ <= s.pushedQ && s.pushedQ[|s.polledQ|..] == s.queue
      && multiset(s.pushedQ) == multiset(s.startedQ) + multiset(InHand(s.stack)) + multiset(s.queue)
  {
    StartIsFine(nest);
    RunKeepsInv(START, run, nest);
  }

  /** The polled tasks are the started ones followed by the one in hand. */
  ghost predicate InOrder(s: State) {
    s.polledQ == s.startedQ + InHand(s.stack)
  }

  lemma {:induction false} BodiesHoldNothing(stack: seq<Frame>)
    requires forall i :: 0 <= i < |stack| ==> stack[i].Body?
    ensures InHand(stack) == []
  {
    if stack != [] { BodiesHoldNothing(stack[..|stack| - 1]); }
  }

  lemma NothingInHandBelow(s: State)
    requires Chain(s.stack, false) && s.Top().InLoop()
    ensures InHand(s.stack[..|s.stack| - 1]) == []
  {
    forall i | 0 <= i < |s.stack| - 1 ensures s.stack[i].Body? {
      LoopsLieOnBodies(s.stack, i);
    }
    BodiesHoldNothing(s.stack[..|s.stack| - 1]);
  }

  lemma MovesKeepOrder(s: State, s': State)
    requires |s.stack| > 0 && Moves(s, s') && InOrder(s)
    requires InHand(s.stack[..|s.stack| - 1]) == [] || (s'.polledQ == s.polledQ && s'.startedQ == s.startedQ)
    ensures InOrder(s')
  {
  }

  lemma LoopKeepsOrder(s: State, step: LoopStep)
    requires |s.stack| > 0 && StackOk(s, false) && InOrder(s) && LoopEnabled(s, step, false)
    ensures InOrder(DoLoop(s, step, false))
  {
    hide InHand, Moves, Chain, Shape, InOrder;
    LoopMoves(s, step, false);
    if s.Top().InLoop() {
      NothingInHandBelow(s);
    }
    MovesKeepOrder(s, DoLoop(s, step, false));
  }

  lemma HandlerKeepsOrder(s: State, step: HandlerStep)
    requires |s.stack| > 0 && StackOk(s, false) && InOrder(s) && HandlerEnabled(s, step)
    ensures InOrder(DoHandler(s, step))
  {
    hide InHand, Moves, Chain, InOrder;
    HandlerMoves(s, step, false);
    MovesKeepOrder(s, DoHandler(s, step));
  }

  lemma StepKeepsOrder(s: State, step: Step)
    requires StackOk(s, false) && InOrder(s) && Enabled(s, step, false)
    ensures InOrder(Do(s, step, false))
  {
    match step {
      case Pushes(p) =>
        hide InHand, Chain;
        assert DoPush(s, p).stack == s.stack;
      case Loops(l) =>
        LoopKeepsOrder(s, l);
      case Handles(h) =>
        HandlerKeepsOrder(s, h);
    }
  }

  lemma {:induction false} RunKeepsOrder(s: State, run: seq<Step>)
    requires Inv(s, false) && InOrder(s) && ValidRun(s, run, false)
    ensures Inv(After(s, run, false), false) && InOrder(After(s, run, false))
    decreases |run|
  {
    if run != [] {
      StepKeepsInv(s, run[0], false);
      StepKeepsOrder(s, run[0]);
      RunKeepsOrder(Do(s, run[0], false), run[1..]);
    }
  }

  lemma StartsInOrder(run: seq<Step>)
    requires ValidRun(START, run, false)
    ensures var s := After(START, run, false); s.startedQ <= s.pushedQ
  {
    StartIsFine(false);
    assert InOrder(START);
    RunKeepsOrder(START, run);
    var s := After(START, run, false);
    StartOf(s.pushedQ, s.polledQ, s.queue, s.startedQ, InHand(s.stack));
  }

  lemma StartOf(pushed: seq<Task>, polled: seq<Task>, queue: seq<Task>, started: seq<Task>, hand: seq<Task>)
    requires pushed == polled + queue && polled == started + hand
    ensures started <= pushed
  {
  }

  ghost predicate Overtaken(s: State) { !(s.startedQ <= s.pushedQ) }

  /** A loop nested in an immediate task overtakes the task its outer loop has in hand. */
  lemma NestedLoopOvertakes() returns (run: seq<Step>)
    ensures ValidRun(START, run, true) && Overtaken(After(START, run, true))
  {
    hide ValidRun, After, Overtaken;
    var s1 := START.(queue := [1], pushedQ := [1], filled := true, bytes := 1);
    var s2 := s1.(queue := [1, 2], pushedQ := [1, 2]);
    var s3 := s2.(imm := [3], pushedI := [3]);
    assert Pushed(START, 1, false) == s1 && Pushed(s1, 2, false) == s2 && Pushed(s2, 3, true) == s3;
    var one := PushRun(START, 1, false, true);
    var two := PushRun(s1, 2, false, true);
    var three := PushRun(s2, 3, true, true);
    run := Overtake(s3);
    RunAppend(s2, three, run, true);
    RunAppend(s1, two, three + run, true);
    RunAppend(START, one, two + (three + run), true);
    run := one + (two + (three + run));
  }

  lemma Overtake(s: State) returns (run: seq<Step>)
    requires s.stack == [Poll] && s.queue == [1, 2] && s.imm == [3] && s.section == Free
    requires s.startedQ == [] && s.pushedQ == [1, 2]
    ensures ValidRun(s, run, true) && Overtaken(After(s, run, true))
  {
    hide ValidRun, After, Overtaken;
    var s1 := s.(stack := [Drain(1)], queue := [2], polledQ := s.polledQ + [1], doBreak := false);
    var s2 := s1.(stack := [DrainBody(1, 3)], imm := [], startedI := s.startedI + [3]);
    assert Do(s, Loops(PollQueue), true) == s1;
    assert Do(s1, Loops(PollImmediate), true) == s2;
    run := OvertakeInside(s2);
    run := RunStep(s1, Loops(PollImmediate), s2, run, true);
    run := RunStep(s, Loops(PollQueue), s1, run, true);
  }

  lemma OvertakeInside(s: State) returns (run: seq<Step>)
    requires s.stack == [DrainBody(1, 3)] && s.queue == [2] && s.imm == [] && s.section == Free
    requires s.startedQ == [] && s.pushedQ == [1, 2]
    ensures ValidRun(s, run, true) && Overtaken(After(s, run, true))
  {
    var s1 := s.Call(Poll);
    var s2 := s1.With(Drain(2)).(queue := [], polledQ := s.polledQ + [2], doBreak := false);
    assert Do(s1, Loops(PollQueue), true) == s2;
    RunOne(s2, Loops(PollImmediate), true);
    StartsTwoFirst(s2);
    hide ValidRun, After, Overtaken;
    run := RunStep(s1, Loops(PollQueue), s2, [Loops(PollImmediate)], true);
    run := RunStep(s, Loops(Nest), s1, run, true);
  }

  lemma StartsTwoFirst(s: State)
    requires |s.stack| > 0 && s.Top() == Drain(2) && s.imm == [] && s.startedQ == [] && s.pushedQ == [1, 2]
    ensures Overtaken(Do(s, Loops(PollImmediate), true))
  {
    assert Do(s, Loops(PollImmediate), true).startedQ[0] == 2;
  }

  ghost predicate CanOvertake(nest: bool) {
    exists run :: ValidRun(START, run, nest) && Overtaken(After(START, run, nest))
  }

  /** Queued tasks can start out of push order exactly when immediate tasks may start a nested loop. */
  lemma OrderGuarantee(nest: bool)
    ensures CanOvertake(nest) <==> nest
  {
    if nest {
      var run := NestedLoopOvertakes();
    } else if CanOvertake(nest) {
      var run :| ValidRun(START, run, false) && Overtaken(After(START, run, false));
      StartsInOrder(run);
    }
  }

  // ----- Leaving a loop -----

  /** The state before the n-th step. */
  function StateAt(run: seq<Step>, nest: bool, n: nat): (s: State)
    requires n <= |run| && ValidRun(START, run, nest)
    ensures |s.stack| > 0
  {
    PrefixIsValid(START, run, nest, n);
    StartIsFine(nest);
    RunKeepsInv(START, run[..n], nest);
    After(START, run[..n], nest)
  }

  lemma {:induction false} PrefixIsValid(s: State, run: seq<Step>, nest: bool, n: nat)
    requires n <= |run| && ValidRun(s, run, nest)
    ensures ValidRun(s, run[..n], nest)
    ensures n < |run| ==>
      && Enabled(After(s, run[..n], nest), run[n], nest)
      && ValidRun(s, run[..n + 1], nest)
      && After(s, run[..n + 1], nest) == Do(After(s, run[..n], nest), run[n], nest)
    decreases n
  {
    hide Do, Enabled;
    if n == 0 {
      if run != [] { assert run[..1] == [run[0]] && run[..1][1..] == []; }
    } else {
      assert run[..n][1..] == run[1..][..n - 1];
      PrefixIsValid(Do(s, run[0], nest), run[1..], nest, n - 1);
      if n < |run| { assert run[..n + 1][1..] == run[1..][..n]; }
    }
  }

  /** The n-th step took the first task of a wait from the queue. */
  ghost predicate TookFirst(run: seq<Step>, nest: bool, n: nat)
    requires n < |run| && ValidRun(START, run, nest)
  {
    run[n] == Loops(PollQueue) && StateAt(run, nest, n).queue != []
  }

  /** The stack without its running loop; the outermost loop starts again. */
  function Without(stack: seq<Frame>): seq<Frame>
    requires |stack| > 0
  {
    if |stack| == 1 then [Poll] else stack[..|stack| - 1]
  }

  /** The stack when its running loop goes on with the queue. */
  function GoneOn(stack: seq<Frame>, queue: seq<Task>): seq<Frame>
    requires |stack| > 0
  {
    stack[..|stack| - 1] + [if queue == [] then Blocked else Drain(queue[0])]
  }

  /** The n-th step left an event loop: its frame is gone, or it is the outermost one and starts again. */
  ghost predicate LeftLoop(run: seq<Step>, nest: bool, n: nat)
    requires n < |run| && ValidRun(START, run, nest)
  {
    && run[n] == Loops(TestBreak)
    && StateAt(run, nest, n + 1).stack == Without(StateAt(run, nest, n).stack)
  }

  /** Step i asks to leave the loop, and neither a new wait nor a loop that was left came after it. */
  ghost predicate AsksAt(run: seq<Step>, nest: bool, n: nat, i: nat)
    requires n <= |run| && ValidRun(START, run, nest)
  {
    && i < n && run[i] == Loops(Break)
    && forall j: nat :: i < j < n ==> !TookFirst(run, nest, j) && !LeftLoop(run, nest, j)
  }

  ghost predicate BreakPending(run: seq<Step>, nest: bool, n: nat)
    requires n <= |run| && ValidRun(START, run, nest)
  {
    exists i: nat :: AsksAt(run, nest, n, i)
  }

  /** What one step does to the request. */
  lemma StepOfBreak(s: State, step: Step, nest: bool)
    requires Enabled(s, step, nest)
    ensures
      Do(s, step, nest).doBreak ==
      if step == Loops(Break) then true
      else if step == Loops(PollQueue) && s.queue != [] then false
      else if step == Loops(TestBreak) then false
      else s.doBreak
  {
    hide DoPush, DoHandler;
    match step {
      case Pushes(p) => PushLeavesBreak(s, p);
      case Loops(_) =>
      case Handles(h) => HandlerLeavesBreak(s, h);
    }
  }

  lemma PushLeavesBreak(s: State, step: PushStep)
    requires |s.stack| > 0 && PushEnabled(s, step)
    ensures DoPush(s, step).doBreak == s.doBreak
  {
  }

  lemma HandlerLeavesBreak(s: State, step: HandlerStep)
    requires |s.stack| > 0 && HandlerEnabled(s, step)
    ensures DoHandler(s, step).doBreak == s.doBreak
  {
  }

  /** What testing the request does to the stack. */
  lemma StackAfterTest(s: State, nest: bool)
    requires Enabled(s, Loops(TestBreak), nest)
    ensures Do(s, Loops(TestBreak), nest).stack == if s.doBreak then Without(s.stack) else GoneOn(s.stack, s.queue)
  {
    var n := |s.stack| - 1;
    forall f ensures s.stack[n := f] == s.stack[..n] + [f] {}
  }

  lemma PendingStep(run: seq<Step>, nest: bool, n: nat)
    requires n < |run| && ValidRun(START, run, nest)
    ensures
      BreakPending(run, nest, n + 1) <==>
      run[n] == Loops(Break) || (BreakPending(run, nest, n) && !TookFirst(run, nest, n) && !LeftLoop(run, nest, n))
  {
    hide TookFirst, LeftLoop, ValidRun;
    if run[n] == Loops(Break) {
      assert AsksAt(run, nest, n + 1, n);
    } else if BreakPending(run, nest, n) && !TookFirst(run, nest, n) && !LeftLoop(run, nest, n) {
      var i: nat :| AsksAt(run, nest, n, i);
      assert AsksAt(run, nest, n + 1, i);
    }
    if BreakPending(run, nest, n + 1) && run[n] != Loops(Break) {
      var i: nat :| AsksAt(run, nest, n + 1, i);
      assert AsksAt(run, nest, n, i);
    }
  }

  lemma {:induction false} RequestIsPending(run: seq<Step>, nest: bool, n: nat)
    requires n <= |run| && ValidRun(START, run, nest)
    ensures StateAt(run, nest, n).doBreak <==> BreakPending(run, nest, n)
  {
    if n == 0 {
      assert run[..0] == [];
    } else {
      hide BreakPending, ValidRun, After, Do, Enabled;
      RequestIsPending(run, nest, n - 1);
      PendingStep(run, nest, n - 1);
      PrefixIsValid(START, run, nest, n - 1);
      StepOfBreak(StateAt(run, nest, n - 1), run[n - 1], nest);
      if run[n - 1] == Loops(TestBreak) { LeavesOrStays(run, nest, n - 1); }
    }
  }

  lemma LeavesOrStays(run: seq<Step>, nest: bool, n: nat)
    requires n < |run| && ValidRun(START, run, nest) && run[n] == Loops(TestBreak)
    ensures LeftLoop(run, nest, n) <==> StateAt(run, nest, n).doBreak
  {
    hide ValidRun, After, Do;
    PrefixIsValid(START, run, nest, n);
    StackAfterTest(StateAt(run, nest, n), nest);
    LeavingIsNotGoingOn(StateAt(run, nest, n).stack, StateAt(run, nest, n).queue);
  }

  lemma LeavingIsNotGoingOn(stack: seq<Frame>, queue: seq<Task>)
    requires |stack| > 0
    ensures Without(stack) != GoneOn(stack, queue)
  {
    if |stack| == 1 { assert Without(stack)[0] != GoneOn(stack, queue)[0]; }
  }

  /** In every run, after a task the loop is left if and only if a break was asked for since the wait
      began and since a loop was last left; otherwise it goes on with the queue. The frames below are
      as they were: a caller that waited for the loop goes on where it called it. */
  lemma BreakLeavesLoop(run: seq<Step>, nest: bool, n: nat)
    requires n < |run| && ValidRun(START, run, nest) && run[n] == Loops(TestBreak)
    ensures
      var s, s' := StateAt(run, nest, n), StateAt(run, nest, n + 1);
      && (LeftLoop(run, nest, n) <==> BreakPending(run, nest, n))
      && s'.stack == if BreakPending(run, nest, n) then Without(s.stack) else GoneOn(s.stack, s.queue)
  {
    hide ValidRun, After, Do, BreakPending;
    RequestIsPending(run, nest, n);
    PrefixIsValid(START, run, nest, n);
    StackAfterTest(StateAt(run, nest, n), nest);
    LeavesOrStays(run, nest, n);
  }
}
