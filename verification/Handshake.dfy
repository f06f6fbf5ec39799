/**
 `executeOnMainThread`: an RPC thread hands a task to the main thread, waits for it, and may
 cancel it by an interrupt. Any number of calls are in flight; every atomic action on a call's
 state, mutex or condition variable is one step. `terminateProceed` stays false.
 */
module Handshake {

  type CallId = nat

  datatype TaskState = Pending | Running | Interrupting | Interrupted | Done

  datatype Owner = NoOwner | RpcThread | MainThread

  /** The RPC thread of a call. It holds the call's mutex except while it sleeps. */
  datatype RpcPc =
    | Loading    // about to load the state
    | Swapping   // about to try RUNNING -> INTERRUPTING
    | Raising    // about to raise the interrupt
    | Publishing // about to store INTERRUPTED
    | Sleeping   // in wait_for
    | Returned

  /** The main thread's progress on a call. */
  datatype MainPc =
    | NotStarted
    | Starting   // about to clear the pending interrupt
    | Claiming   // about to try PENDING -> RUNNING
    | InBody
    | Finishing  // about to take the mutex
    | Closing    // about to try RUNNING -> DONE
    | Awaiting   // waiting for INTERRUPTED
    | Storing    // about to store DONE
    | Clearing   // about to clear the pending interrupt
    | Unlocking
    | Finished

  // starts and ends count how often the task's body began and ended.
  datatype Call = Call(state: TaskState, owner: Owner, rpc: RpcPc, main: MainPc, cancelled: bool, starts: nat,
                       ends: nat)

  const FRESH := Call(Pending, RpcThread, Loading, NotStarted, false, 0, 0)

  // `stack` lists the calls whose tasks are on the main thread's stack, the running one last;
  // `pendingBy` the calls whose cancellation raised the interrupt that is now pending.
  datatype State = State(calls: map<CallId, Call>, stack: seq<CallId>, pendingBy: set<CallId>)
  {
    predicate Runs(c: CallId) { |stack| > 0 && stack[|stack| - 1] == c && c in calls }
    function Put(c: CallId, call: Call): State { this.(calls := calls[c := call]) }
  }

  const START := State(map[], [], {})

  datatype Step =
    // the RPC thread of call c
    | New(c: CallId) | Load(c: CallId, clientCancelled: bool) | Swap(c: CallId) | Raise(c: CallId)
    | Publish(c: CallId) | WakeUp(c: CallId)
    // the main thread
    | Begin(c: CallId) | ClearAtStart(c: CallId) | Claim(c: CallId) | CheckInterrupt(c: CallId) | EndBody(c: CallId)
    | Lock(c: CallId) | Close(c: CallId) | Resume(c: CallId) | Store(c: CallId) | ClearAtEnd(c: CallId)
    | Unlock(c: CallId)

  predicate RpcAt(s: State, c: CallId, pc: RpcPc) { c in s.calls && s.calls[c].rpc == pc }

  predicate MainAt(s: State, c: CallId, pc: MainPc) { s.Runs(c) && s.calls[c].main == pc }

  /** nest says whether a task may run further tasks before it ends, by an event loop of its own. */
  predicate Enabled(s: State, step: Step, nest: bool) {
    match step
    case New(c) => c !in s.calls
    case Load(c, _) => RpcAt(s, c, Loading)
    case Swap(c) => RpcAt(s, c, Swapping)
    case Raise(c) => RpcAt(s, c, Raising)
    case Publish(c) => RpcAt(s, c, Publishing)
    case WakeUp(c) => RpcAt(s, c, Sleeping) && s.calls[c].owner == NoOwner
    case Begin(c) =>
      && c in s.calls && s.calls[c].main == NotStarted
      && (s.stack == [] || (nest && MainAt(s, s.stack[|s.stack| - 1], InBody)))
    case ClearAtStart(c) => MainAt(s, c, Starting)
    case Claim(c) => MainAt(s, c, Claiming)
    case CheckInterrupt(c) => MainAt(s, c, InBody)
    case EndBody(c) => MainAt(s, c, InBody)
    case Lock(c) => MainAt(s, c, Finishing) && s.calls[c].owner == NoOwner
    case Close(c) => MainAt(s, c, Closing)
    case Resume(c) => MainAt(s, c, Awaiting) && s.calls[c].owner == NoOwner && s.calls[c].state == Interrupted
    case Store(c) => MainAt(s, c, Storing)
    case ClearAtEnd(c) => MainAt(s, c, Clearing)
    case Unlock(c) => MainAt(s, c, Unlocking)
  }

  function Do(s: State, step: Step, nest: bool): State
    requires Enabled(s, step, nest)
  {
    match step
    case New(c) => s.Put(c, FRESH)
    case Load(c, clientCancelled) =>
      var k := s.calls[c];
      s.Put(c, if k.state == Done then k.(owner := NoOwner, rpc := Returned)
               else if k.state == Running && !k.cancelled && clientCancelled then k.(rpc := Swapping)
               else k.(owner := NoOwner, rpc := Sleeping))
    case Swap(c) =>
      var k := s.calls[c];
      s.Put(c, if k.state == Running then k.(state := Interrupting, cancelled := true, rpc := Raising)
               else k.(owner := NoOwner, rpc := Sleeping))
    case Raise(c) => s.Put(c, s.calls[c].(rpc := Publishing)).(pendingBy := s.pendingBy + {c})
    case Publish(c) => s.Put(c, s.calls[c].(state := Interrupted, owner := NoOwner, rpc := Sleeping))
    case WakeUp(c) => s.Put(c, s.calls[c].(owner := RpcThread, rpc := Loading))
    case Begin(c) => s.Put(c, s.calls[c].(main := Starting)).(stack := s.stack + [c])
    case ClearAtStart(c) => s.Put(c, s.calls[c].(main := Claiming)).(pendingBy := {})
    case Claim(c) =>
      var k := s.calls[c];
      if k.state == Pending then s.Put(c, k.(state := Running, main := InBody, starts := k.starts + 1))
      else s.Put(c, k.(main := Finished)).(stack := s.stack[..|s.stack| - 1])
    case CheckInterrupt(c) => s.(pendingBy := {}) // the task notices the interrupt
    case EndBody(c) => s.Put(c, s.calls[c].(main := Finishing, ends := s.calls[c].ends + 1))
    case Lock(c) => s.Put(c, s.calls[c].(owner := MainThread, main := Closing))
    case Close(c) =>
      var k := s.calls[c];
      s.Put(c, if k.state == Running then k.(state := Done, main := Storing)
               else if k.state == Interrupting then k.(owner := NoOwner, main := Awaiting)
               else k.(main := Storing))
    case Resume(c) => s.Put(c, s.calls[c].(owner := MainThread, main := Storing))
    case Store(c) => s.Put(c, s.calls[c].(state := Done, main := Clearing))
    case ClearAtEnd(c) => s.Put(c, s.calls[c].(main := Unlocking)).(pendingBy := {})
    case Unlock(c) => s.Put(c, s.calls[c].(owner := NoOwner, main := Finished)).(stack := s.stack[..|s.stack| - 1])
  }

  predicate ValidRun(s: State, run: seq<Step>, nest: bool)
    decreases |run|
  {
    run == [] || (Enabled(s, run[0], nest) && ValidRun(Do(s, run[0], nest), run[1..], nest))
  }

  function After(s: State, run: seq<Step>, nest: bool): State
    requires ValidRun(s, run, nest)
    decreases |run|
  {
    if run == [] then s else After(Do(s, run[0], nest), run[1..], nest)
  }

  // ----- The invariant -----

  /** How the two threads of one call, its state and its mutex fit together. */
  predicate CallOk(k: Call) {
    && (k.owner == RpcThread <==> k.rpc != Sleeping && k.rpc != Returned)
    && (k.owner == MainThread <==> k.main.Closing? || k.main.Storing? || k.main.Clearing? || k.main.Unlocking?)
    && (k.state == Interrupting <==> k.rpc == Raising || k.rpc == Publishing)
    && (k.rpc == Returned ==> k.main == Finished)
    && (match k.main
        case NotStarted => k.state == Pending && k.starts == 0 && k.ends == 0
        case Starting => k.state == Pending && k.starts == 0 && k.ends == 0
        case Claiming => k.state == Pending && k.starts == 0 && k.ends == 0
        case InBody => k.state != Pending && k.state != Done && k.starts == 1 && k.ends == 0
        case Finishing => k.state != Pending && k.state != Done && k.starts == 1 && k.ends == 1
        case Closing => (k.state == Running || k.state == Interrupted) && k.starts == 1 && k.ends == 1
        case Awaiting => false
        case Storing => (k.state == Done || k.state == Interrupted) && k.starts == 1 && k.ends == 1
        case Clearing => k.state == Done && k.starts == 1 && k.ends == 1
        case Unlocking => k.state == Done && k.starts == 1 && k.ends == 1
        case Finished => k.state == Done && k.starts == 1 && k.ends == 1)
  }

  /** The task of the call may still see the interrupt its cancellation raised. */
  predicate MaySee(k: Call) {
    k.main.InBody? || k.main.Finishing? || k.main.Closing? || k.main.Storing? || k.main.Clearing?
  }

  ghost predicate CallsOk(s: State) {
    forall c <- s.calls :: CallOk(s.calls[c])
  }

  ghost predicate PendingOk(s: State) {
    forall c <- s.pendingBy :: c in s.calls && MaySee(s.calls[c])
  }

  /** The stack lists each active call once; only the last one is outside its body. */
  ghost predicate StackOk(s: State, nest: bool) {
    && (forall i :: 0 <= i < |s.stack| ==> s.stack[i] in s.calls)
    && (forall i, j :: 0 <= i < j < |s.stack| ==> s.stack[i] != s.stack[j])
    && (forall i :: 0 <= i < |s.stack| - 1 ==> s.calls[s.stack[i]].main == InBody)
    && (forall c <- s.calls :: s.calls[c].main != NotStarted && s.calls[c].main != Finished <==> c in s.stack)
    && (!nest ==> |s.stack| <= 1)
  }

  ghost predicate Inv(s: State, nest: bool) {
    CallsOk(s) && PendingOk(s) && StackOk(s, nest)
  }

  predicate ByRpcThread(step: Step) {
    step.New? || step.Load? || step.Swap? || step.Raise? || step.Publish? || step.WakeUp? || step.CheckInterrupt?
  }

  lemma StepKeepsCalls(s: State, step: Step, nest: bool)
    requires CallsOk(s) && Enabled(s, step, nest)
    ensures CallsOk(Do(s, step, nest))
  {
    var s' := Do(s, step, nest);
    OthersAreKept(s, step, nest);
    if step.c in s'.calls {
      if ByRpcThread(step) {
        RpcStepKeepsCall(s, step, nest);
      } else {
        MainStepKeepsCall(s, step, nest);
      }
    }
    hide Do, Enabled, CallOk;
  }

  lemma OthersAreKept(s: State, step: Step, nest: bool)
    requires Enabled(s, step, nest)
    ensures forall c <- Do(s, step, nest).calls :: c != step.c ==>
        c in s.calls && Do(s, step, nest).calls[c] == s.calls[c]
  {
  }

  lemma RpcStepKeepsCall(s: State, step: Step, nest: bool)
    requires CallsOk(s) && Enabled(s, step, nest) && ByRpcThread(step) && step.c in Do(s, step, nest).calls
    ensures CallOk(Do(s, step, nest).calls[step.c])
  {
  }

  lemma MainStepKeepsCall(s: State, step: Step, nest: bool)
    requires CallsOk(s) && Enabled(s, step, nest) && !ByRpcThread(step) && step.c in Do(s, step, nest).calls
    ensures CallOk(Do(s, step, nest).calls[step.c])
  {
  }

  lemma StepKeepsPending(s: State, step: Step, nest: bool)
    requires CallsOk(s) && PendingOk(s) && Enabled(s, step, nest)
    ensures PendingOk(Do(s, step, nest))
  {
  }

  lemma RpcStepKeepsStack(s: State, step: Step, nest: bool)
    requires StackOk(s, nest) && Enabled(s, step, nest) && ByRpcThread(step)
    ensures StackOk(Do(s, step, nest), nest)
  {
    var s' := Do(s, step, nest);
    assert s'.stack == s.stack;
    assert forall c <- s.calls :: c in s'.calls && s'.calls[c].main == s.calls[c].main;
    assert forall c <- s'.calls :: c in s.calls || s'.calls[c].main == NotStarted;
    hide Do, Enabled;
  }

  lemma BeginKeepsStack(s: State, c: CallId, nest: bool)
    requires StackOk(s, nest) && Enabled(s, Begin(c), nest)
    ensures StackOk(Do(s, Begin(c), nest), nest)
  {
    assert c !in s.stack;
  }

  /** Only the running call moves on; it is popped when it is finished. */
  ghost predicate MovesOn(s: State, s': State, c: CallId) {
    && s.Runs(c) && s'.calls.Keys == s.calls.Keys
    && (forall d <- s.calls :: d != c ==> s'.calls[d] == s.calls[d])
    && s'.calls[c].main != NotStarted
    && s'.stack == if s'.calls[c].main == Finished then s.stack[..|s.stack| - 1] else s.stack
  }

  lemma MainStepMovesOn(s: State, step: Step, nest: bool)
    requires CallsOk(s) && Enabled(s, step, nest) && !ByRpcThread(step) && !step.Begin?
    ensures MovesOn(s, Do(s, step, nest), step.c)
  {
  }

  lemma MovesOnKeepsStack(s: State, s': State, c: CallId, nest: bool)
    requires StackOk(s, nest) && MovesOn(s, s', c)
    ensures StackOk(s', nest)
  {
    var n := |s.stack|;
    assert forall i :: 0 <= i < n - 1 ==> s.stack[i] != c;
    forall d | d in s'.calls
      ensures s'.calls[d].main != NotStarted && s'.calls[d].main != Finished <==> d in s'.stack
    {
      assert d != c ==> (d in s.stack <==> d in s.stack[..n - 1]);
    }
  }

  lemma StepKeepsStack(s: State, step: Step, nest: bool)
    requires CallsOk(s) && StackOk(s, nest) && Enabled(s, step, nest)
    ensures StackOk(Do(s, step, nest), nest)
  {
    if ByRpcThread(step) {
      RpcStepKeepsStack(s, step, nest);
    } else {
      hide StackOk, MovesOn, Do, CallsOk;
      if step.Begin? {
        BeginKeepsStack(s, step.c, nest);
      } else {
        MainStepMovesOn(s, step, nest);
        MovesOnKeepsStack(s, Do(s, step, nest), step.c, nest);
      }
    }
  }

  lemma StepKeepsInv(s: State, step: Step, nest: bool)
    requires Inv(s, nest) && Enabled(s, step, nest)
    ensures Inv(Do(s, step, nest), nest)
  {
    StepKeepsCalls(s, step, nest);
    StepKeepsPending(s, step, nest);
    StepKeepsStack(s, step, nest);
    hide CallsOk, PendingOk, StackOk, Do;
  }

  lemma {:induction false} RunKeepsInv(s: State, run: seq<Step>, nest: bool)
    requires Inv(s, nest) && ValidRun(s, run, nest)
    ensures Inv(After(s, run, nest), nest)
    decreases |run|
  {
    hide Inv, Do, Enabled;
    if run != [] {
      StepKeepsInv(s, run[0], nest);
      RunKeepsInv(Do(s, run[0], nest), run[1..], nest);
    }
  }

  // ----- What the handshake guarantees -----

  /** A call returns only after its body ran exactly once and ended, and after the main thread has
      released the call's mutex; and the main thread never waits for INTERRUPTED. */
  lemma ReturnMeansDone(run: seq<Step>, nest: bool, c: CallId)
    requires ValidRun(START, run, nest) && c in After(START, run, nest).calls
    ensures
      var k := After(START, run, nest).calls[c];
      && (k.rpc == Returned ==> k.starts == 1 && k.ends == 1 && k.main == Finished && k.owner == NoOwner)
      && k.main != Awaiting
      && k.ends <= k.starts <= 1
  {
    RunKeepsInv(START, run, nest);
  }

  /** INTERRUPTING is visible only while the RPC thread holds the call's mutex. */
  lemma InterruptingIsPrivate(run: seq<Step>, nest: bool, c: CallId)
    requires ValidRun(START, run, nest) && c in After(START, run, nest).calls
    ensures var k := After(START, run, nest).calls[c]; k.state == Interrupting ==> k.owner == RpcThread
  {
    RunKeepsInv(START, run, nest);
  }

  /** A task runs while the interrupt of another call's cancellation is pending. */
  ghost predicate Leaks(s: State) {
    exists c, d :: c in s.pendingBy && MainAt(s, d, InBody) && c != d
  }

  ghost predicate CanLeak(nest: bool) {
    exists run :: ValidRun(START, run, nest) && Leaks(After(START, run, nest))
  }

  lemma RunCons(s: State, step: Step, rest: seq<Step>, nest: bool)
    requires Enabled(s, step, nest) && ValidRun(Do(s, step, nest), rest, nest)
    ensures ValidRun(s, [step] + rest, nest) && After(s, [step] + rest, nest) == After(Do(s, step, nest), rest, nest)
  {
    assert ([step] + rest)[1..] == rest;
  }

  lemma RunAppend(s: State, first: seq<Step>, rest: seq<Step>, nest: bool)
    requires ValidRun(s, first, nest) && ValidRun(After(s, first, nest), rest, nest)
    ensures ValidRun(s, first + rest, nest) && After(s, first + rest, nest) == After(After(s, first, nest), rest, nest)
    decreases |first|
  {
    hide Do, Enabled;
    if first == [] {
      assert first + rest == rest;
    } else {
      assert (first + rest)[1..] == first[1..] + rest;
      RunAppend(Do(s, first[0], nest), first[1..], rest, nest);
    }
  }

  /** The step leads to s', where the rest of the run starts. */
  lemma RunStep(s: State, step: Step, s': State, rest: seq<Step>) returns (run: seq<Step>)
    requires Enabled(s, step, true) && Do(s, step, true) == s' && ValidRun(s', rest, true)
    ensures ValidRun(s, run, true) && After(s, run, true) == After(s', rest, true)
  {
    run := [step] + rest;
    RunCons(s, step, rest, true);
  }

  lemma RunOne(s: State, step: Step)
    requires Enabled(s, step, true)
    ensures ValidRun(s, [step], true) && After(s, [step], true) == Do(s, step, true)
  {
    hide Enabled, Do;
  }

  /** A fresh call whose RPC thread sleeps and whose body has just started. */
  lemma StartRun(s: State, c: CallId) returns (run: seq<Step>)
    requires c !in s.calls && (s.stack == [] || MainAt(s, s.stack[|s.stack| - 1], InBody))
    ensures ValidRun(s, run, true)
    ensures After(s, run, true) ==
      State(s.calls[c := Call(Running, NoOwner, Sleeping, InBody, false, 1, 0)], s.stack + [c], {})
  {
    hide ValidRun, After;
    var k := Call(Pending, NoOwner, Sleeping, NotStarted, false, 0, 0);
    var s1 := s.Put(c, FRESH);
    var s2 := s.Put(c, k);
    assert s1.Put(c, k) == s2;
    run := BodyRun(s2, c, k);
    assert s2.calls[c := Call(Running, NoOwner, Sleeping, InBody, false, 1, 0)] ==
           s.calls[c := Call(Running, NoOwner, Sleeping, InBody, false, 1, 0)];
    run := RunStep(s1, Load(c, false), s2, run);
    run := RunStep(s, New(c), s1, run);
  }

  /** The task of a waiting call is taken from the queue and starts. */
  lemma BodyRun(s: State, c: CallId, k: Call) returns (run: seq<Step>)
    requires c in s.calls && s.calls[c] == k == Call(Pending, NoOwner, Sleeping, NotStarted, false, 0, 0)
    requires s.stack == [] || MainAt(s, s.stack[|s.stack| - 1], InBody)
    ensures ValidRun(s, run, true)
    ensures After(s, run, true) ==
      State(s.calls[c := Call(Running, NoOwner, Sleeping, InBody, false, 1, 0)], s.stack + [c], {})
  {
    var s1 := State(s.calls[c := k.(main := Starting)], s.stack + [c], s.pendingBy);
    var s2 := State(s.calls[c := k.(main := Claiming)], s.stack + [c], {});
    assert s1.calls[c := k.(main := Claiming)] == s2.calls;
    ClaimRun(s2, c);
    assert s2.calls[c := Call(Running, NoOwner, Sleeping, InBody, false, 1, 0)] ==
           s.calls[c := Call(Running, NoOwner, Sleeping, InBody, false, 1, 0)];
    hide ValidRun, After;
    run := RunStep(s1, ClearAtStart(c), s2, [Claim(c)]);
    run := RunStep(s, Begin(c), s1, run);
  }

  lemma ClaimRun(s: State, c: CallId)
    requires MainAt(s, c, Claiming) && s.calls[c] == Call(Pending, NoOwner, Sleeping, Claiming, false, 0, 0)
    ensures ValidRun(s, [Claim(c)], true)
    ensures After(s, [Claim(c)], true) == s.Put(c, Call(Running, NoOwner, Sleeping, InBody, false, 1, 0))
  {
    RunOne(s, Claim(c));
    hide ValidRun, After;
  }

  /** The client cancels call c while another call runs. */
  lemma CancelRun(s: State, c: CallId) returns (run: seq<Step>)
    requires c in s.calls && s.calls[c] == Call(Running, NoOwner, Sleeping, InBody, false, 1, 0)
    requires |s.stack| > 0 && s.stack[|s.stack| - 1] != c && MainAt(s, s.stack[|s.stack| - 1], InBody)
    ensures ValidRun(s, run, true) && Leaks(After(s, run, true))
  {
    var k, d := s.calls[c], s.stack[|s.stack| - 1];
    var s1 := s.Put(c, k.(owner := RpcThread, rpc := Loading));
    var s2 := s.Put(c, k.(owner := RpcThread, rpc := Swapping));
    var s3 := s.Put(c, k.(owner := RpcThread, state := Interrupting, cancelled := true, rpc := Raising));
    assert s1.calls[c := s2.calls[c]] == s2.calls && s2.calls[c := s3.calls[c]] == s3.calls;
    RunOne(s3, Raise(c));
    var s4 := Do(s3, Raise(c), true);
    assert c in s4.pendingBy && MainAt(s4, d, InBody);
    hide ValidRun, After, Leaks;
    run := RunStep(s2, Swap(c), s3, [Raise(c)]);
    run := RunStep(s1, Load(c, true), s2, run);
    run := RunStep(s, WakeUp(c), s1, run);
  }

  /** Call 0 is cancelled while the task of call 1 runs inside its task. */
  lemma NestedTasksLeak() returns (run: seq<Step>)
    ensures ValidRun(START, run, true) && Leaks(After(START, run, true))
  {
    hide ValidRun, After, Leaks;
    var outer := StartRun(START, 0);
    var s1 := After(START, outer, true);
    var inner := StartRun(s1, 1);
    var s2 := After(s1, inner, true);
    var tail := CancelRun(s2, 0);
    RunAppend(s1, inner, tail, true);
    RunAppend(START, outer, inner + tail, true);
    run := outer + (inner + tail);
  }

  /** A cancellation can interrupt another call's task exactly when tasks may nest. */
  lemma InterruptsStayHome(nest: bool)
    ensures CanLeak(nest) <==> nest
  {
    hide Leaks, ValidRun, After;
    if nest {
      var run := NestedTasksLeak();
    } else if CanLeak(nest) {
      var run :| ValidRun(START, run, false) && Leaks(After(START, run, false));
      RunKeepsInv(START, run, false);
      NoLeak(After(START, run, false));
    }
  }

  lemma NoLeak(s: State)
    requires Inv(s, false)
    ensures !Leaks(s)
  {
    forall c, d | c in s.pendingBy && MainAt(s, d, InBody) ensures c == d {
      assert c in s.stack && d in s.stack;
    }
  }

  // ----- Run by run -----

  /** Every interrupt of the run is raised while the cancelled call is the running one. */
  ghost predicate RaisesAtHome(s: State, run: seq<Step>, nest: bool)
    requires ValidRun(s, run, nest)
    decreases |run|
  {
    run == [] ||
    ((run[0].Raise? ==> s.Runs(run[0].c)) && RaisesAtHome(Do(s, run[0], nest), run[1..], nest))
  }

  /** A pending interrupt belongs to the running call, or the running call is about to clear it. */
  ghost predicate AtHome(s: State) {
    forall c <- s.pendingBy :: s.stack != [] && (s.Runs(c) || MainAt(s, s.stack[|s.stack| - 1], Starting))
  }

  lemma StepKeepsHome(s: State, step: Step, nest: bool)
    requires Inv(s, nest) && AtHome(s) && Enabled(s, step, nest) && (step.Raise? ==> s.Runs(step.c))
    ensures AtHome(Do(s, step, nest))
  {
    if ByRpcThread(step) {
      RpcStepKeepsHome(s, step, nest);
    } else if !step.Begin? {
      MainStepKeepsHome(s, step, nest);
    }
  }

  lemma RpcStepKeepsHome(s: State, step: Step, nest: bool)
    requires AtHome(s) && Enabled(s, step, nest) && ByRpcThread(step) && (step.Raise? ==> s.Runs(step.c))
    ensures AtHome(Do(s, step, nest))
  {
  }

  lemma MainStepKeepsHome(s: State, step: Step, nest: bool)
    requires CallsOk(s) && PendingOk(s) && AtHome(s) && Enabled(s, step, nest) && !ByRpcThread(step) && !step.Begin?
    ensures AtHome(Do(s, step, nest))
  {
  }

  lemma {:induction false} HomeIsKept(s: State, run: seq<Step>, nest: bool)
    requires Inv(s, nest) && AtHome(s) && ValidRun(s, run, nest) && RaisesAtHome(s, run, nest)
    ensures AtHome(After(s, run, nest))
    decreases |run|
  {
    hide Inv, Do, Enabled, AtHome;
    if run != [] {
      StepKeepsInv(s, run[0], nest);
      StepKeepsHome(s, run[0], nest);
      HomeIsKept(Do(s, run[0], nest), run[1..], nest);
    }
  }

  /** A run leaks only after an interrupt was raised while its call was not the running one; and one
      raised while the body of another call runs leaks at once. */
  lemma LeaksComeFromAway(run: seq<Step>, nest: bool)
    requires ValidRun(START, run, nest)
    ensures Leaks(After(START, run, nest)) ==> !RaisesAtHome(START, run, nest)
    ensures
      var s := After(START, run, nest);
      forall c, d :: Enabled(s, Raise(c), nest) && c != d && MainAt(s, d, InBody) ==> Leaks(Do(s, Raise(c), nest))
  {
    var s := After(START, run, nest);
    if RaisesAtHome(START, run, nest) {
      HomeIsKept(START, run, nest);
    }
    forall c, d | Enabled(s, Raise(c), nest) && c != d && MainAt(s, d, InBody) ensures Leaks(Do(s, Raise(c), nest)) {
      var s' := Do(s, Raise(c), nest);
      assert c in s'.pendingBy && MainAt(s', d, InBody);
    }
  }

  // ----- Cancelling -----

  /** The state before the n-th step. */
  function StateAt(run: seq<Step>, nest: bool, n: nat): State
    requires n <= |run| && ValidRun(START, run, nest)
  {
    PrefixIsValid(START, run, nest, n);
    After(START, run[..n], nest)
  }

  lemma {:induction false} PrefixIsValid(s: State, run: seq<Step>, nest: bool, n: nat)
    requires n <= |run| && ValidRun(s, run, nest)
    ensures ValidRun(s, run[..n], nest)
    ensures n < |run| ==>
      && Enabled(After(s, run[..n], nest), run[n], nest)
      && ValidRun(s, run[..n + 1], nest)
      && After(s, run[..n + 1], nest) == Do(After(s, run[..n], nest), run[n], nest)
    decreases n
  {
    hide Do, Enabled;
    if n == 0 {
      if run != [] { assert run[..1] == [run[0]] && run[..1][1..] == []; }
    } else {
      assert run[..n][1..] == run[1..][..n - 1];
      PrefixIsValid(Do(s, run[0], nest), run[1..], nest, n - 1);
      if n < |run| { assert run[..n + 1][1..] == run[1..][..n]; }
    }
  }

  /** One of the first n steps is this one. */
  ghost predicate Occurs(run: seq<Step>, n: nat, step: Step)
    requires n <= |run|
  {
    exists i: nat :: i < n && run[i] == step
  }

  lemma OccursNext(run: seq<Step>, n: nat, step: Step)
    requires n < |run|
    ensures Occurs(run, n + 1, step) <==> Occurs(run, n, step) || run[n] == step
  {
    if run[n] == step { assert run[n as nat] == step; }
  }

  /** The call was cancelled, or is being cancelled. */
  predicate Cancelling(k: Call) { k.cancelled || k.rpc.Swapping? || k.rpc.Raising? || k.rpc.Publishing? }

  /** The interrupt of the call was raised. */
  predicate WasRaised(k: Call) { k.cancelled && !k.rpc.Swapping? && !k.rpc.Raising? }

  /** How a step changes where a call stands. */
  lemma StepOfCancelling(s: State, step: Step, nest: bool, c: CallId)
    requires Enabled(s, step, nest) && c in Do(s, step, nest).calls
    requires c in s.calls && (s.calls[c].rpc.Swapping? ==> !s.calls[c].cancelled)
    requires c in s.calls && (s.calls[c].rpc.Raising? || s.calls[c].rpc.Publishing? ==> s.calls[c].cancelled)
    ensures
      var k, k' := s.calls[c], Do(s, step, nest).calls[c];
      && (k'.rpc.Swapping? ==> !k'.cancelled)
      && (k'.rpc.Raising? || k'.rpc.Publishing? ==> k'.cancelled)
      && (Cancelling(k') ==> Cancelling(k) || step == Load(c, true))
      && (WasRaised(k') <==> WasRaised(k) || step == Raise(c))
      && (step == Raise(c) ==> !WasRaised(k))
  {
  }

  /** What the first n steps say about call c. */
  ghost predicate Explained(run: seq<Step>, nest: bool, n: nat, c: CallId)
    requires n <= |run| && ValidRun(START, run, nest)
  {
    var s := StateAt(run, nest, n);
    && (c !in s.calls ==> !Occurs(run, n, Raise(c)))
    && (c in s.calls ==>
          var k := s.calls[c];
          && (k.rpc.Swapping? ==> !k.cancelled)
          && (k.rpc.Raising? || k.rpc.Publishing? ==> k.cancelled)
          && (Cancelling(k) ==> Occurs(run, n, Load(c, true)))
          && (Occurs(run, n, Raise(c)) <==> WasRaised(k)))
  }

  lemma {:induction false} EveryCallIsExplained(run: seq<Step>, nest: bool, n: nat, c: CallId)
    requires n <= |run| && ValidRun(START, run, nest)
    ensures Explained(run, nest, n, c)
  {
    if n == 0 {
      assert run[..0] == [];
    } else {
      EveryCallIsExplained(run, nest, n - 1, c);
      PrefixIsValid(START, run, nest, n - 1);
      OccursNext(run, n - 1, Load(c, true));
      OccursNext(run, n - 1, Raise(c));
      var s, s' := StateAt(run, nest, n - 1), StateAt(run, nest, n);
      if c in s.calls {
        CallsStay(s, run[n - 1], nest, c);
        hide ValidRun, After, Do, Enabled, Cancelling, WasRaised, Occurs;
        StepOfCancelling(s, run[n - 1], nest, c);
      } else {
        CallsAreNew(s, run[n - 1], nest, c);
      }
    }
  }

  lemma CallsStay(s: State, step: Step, nest: bool, c: CallId)
    requires Enabled(s, step, nest) && c in s.calls
    ensures c in Do(s, step, nest).calls
  {
  }

  lemma CallsAreNew(s: State, step: Step, nest: bool, c: CallId)
    requires Enabled(s, step, nest) && c !in s.calls
    ensures step != Raise(c) && (c in Do(s, step, nest).calls ==> Do(s, step, nest).calls[c] == FRESH)
  {
  }

  /** In every run a call is interrupted at most once, and only after its RPC thread found that the
      client had cancelled it. */
  lemma InterruptsAreAskedFor(run: seq<Step>, nest: bool, n: nat, c: CallId)
    requires n < |run| && ValidRun(START, run, nest) && run[n] == Raise(c)
    ensures exists i: nat :: i < n && run[i] == Load(c, true)
    ensures forall m: nat :: m < |run| && run[m] == Raise(c) ==> m == n
  {
    RaisedOnce(run, nest, n, c);
    forall m: nat | m < |run| && run[m] == Raise(c) ensures m == n {
      RaisedOnce(run, nest, m, c);
    }
  }

  lemma RaisedOnce(run: seq<Step>, nest: bool, n: nat, c: CallId)
    requires n < |run| && ValidRun(START, run, nest) && run[n] == Raise(c)
    ensures Occurs(run, n, Load(c, true)) && forall m: nat :: m < n ==> run[m] != Raise(c)
  {
    EveryCallIsExplained(run, nest, n, c);
    PrefixIsValid(START, run, nest, n);
    hide ValidRun, After, Do;
    assert !Occurs(run, n, Raise(c));
  }

  /** What the RPC thread makes of a look at the state: it returns exactly when the call is done, it goes
      on to interrupt the call exactly when that runs, its client has cancelled it and it was not
      interrupted before, and otherwise it waits again without the mutex. */
  lemma LookingAtCall(run: seq<Step>, nest: bool, n: nat, c: CallId, clientCancelled: bool)
    requires n < |run| && ValidRun(START, run, nest) && run[n] == Load(c, clientCancelled)
    ensures c in StateAt(run, nest, n).calls && c in StateAt(run, nest, n + 1).calls
    ensures
      var k, s' := StateAt(run, nest, n).calls[c], StateAt(run, nest, n + 1);
      && (Enabled(s', Swap(c), nest) <==> clientCancelled && k.state == Running && !Occurs(run, n, Raise(c)))
      && (s'.calls[c].rpc == Returned <==> k.state == Done)
      && (!Enabled(s', Swap(c), nest) ==> s'.calls[c].owner == NoOwner && !Enabled(s', Load(c, true), nest))
  {
    PrefixIsValid(START, run, nest, n);
    EveryCallIsExplained(run, nest, n, c);
  }

  /** The steps of the RPC thread that are left once the call is done. */
  function StepsToReturn(k: Call, c: CallId): seq<Step> {
    match k.rpc
    case Swapping => [Swap(c), WakeUp(c), Load(c, false)]
    case Sleeping => [WakeUp(c), Load(c, false)]
    case Loading => [Load(c, false)]
    case _ => []
  }

  /** In whatever state a run is, a call whose task has finished returns by steps of its own thread alone. */
  lemma FinishedCallsReturn(run: seq<Step>, nest: bool, c: CallId)
    requires ValidRun(START, run, nest)
    requires c in After(START, run, nest).calls && After(START, run, nest).calls[c].main == Finished
    ensures
      var s := After(START, run, nest);
      var more := StepsToReturn(s.calls[c], c);
      ValidRun(s, more, nest) && c in After(s, more, nest).calls && After(s, more, nest).calls[c].rpc == Returned
  {
    RunKeepsInv(START, run, nest);
    var s := After(START, run, nest);
    assert CallOk(s.calls[c]);
    ReturnsFrom(s, nest, c);
    hide ValidRun, After;
  }

  lemma {:induction false} ReturnsFrom(s: State, nest: bool, c: CallId)
    requires c in s.calls && CallOk(s.calls[c]) && s.calls[c].main == Finished
    ensures
      var more := StepsToReturn(s.calls[c], c);
      ValidRun(s, more, nest) && c in After(s, more, nest).calls && After(s, more, nest).calls[c].rpc == Returned
    decreases |StepsToReturn(s.calls[c], c)|
  {
    var more := StepsToReturn(s.calls[c], c);
    if more == [] {
      assert s.calls[c].rpc == Returned;
    } else {
      var s' := Do(s, more[0], nest);
      assert more[1..] == StepsToReturn(s'.calls[c], c);
      hide Do;
      ReturnsFrom(s', nest, c);
    }
  }
}
