/** Stepping over and out of functions: where the stack of contexts makes the debugger stop. */
module Stepping {
  import opened Wrappers
  /** An R context. Environments are numbered. */
  datatype Context = Context(id: int, isCall: bool, environment: int, evalDepth: int)

  /** The context that code runs in at the bottom, and the environment it really uses. */
  datatype Bottom = Bottom(context: Option<int>, environment: int)

  function EnvironmentOf(c: Context, bottom: Bottom): int {
    if bottom.context == Some(c.id) then bottom.environment else c.environment
  }

  // Stacks hold the outermost context first.

  /** The innermost call context, or -1. */
  function CurrentCall(stack: seq<Context>): (i: int)
    ensures -1 <= i < |stack|
    ensures i >= 0 ==> stack[i].isCall
    ensures forall j :: i < j < |stack| ==> !stack[j].isCall
  {
    if stack == [] then -1
    else if stack[|stack| - 1].isCall then |stack| - 1
    else CurrentCall(stack[..|stack| - 1])
  }

  /** Walks outwards to the first call context. */
  method GetCurrentCallContext(stack: seq<Context>) returns (i: int)
    ensures i == CurrentCall(stack)
  {
    i := |stack| - 1;
    while i >= 0 && !stack[i].isCall
      invariant -1 <= i < |stack| && CurrentCall(stack) == CurrentCall(stack[..i + 1])
    {
      assert stack[..i + 1][..i] == stack[..i];
      i := i - 1;
    }
  }

  /** The debugger may stop in this context: any call, but not the current one when stepping out. */
  predicate Counts(stack: seq<Context>, skipFirst: bool, i: int) {
    0 <= i < |stack| && stack[i].isCall && !(skipFirst && i == CurrentCall(stack))
  }

  /** Context i is the innermost one that counts for its environment. */
  ghost predicate IsInnermost(stack: seq<Context>, bottom: Bottom, skipFirst: bool, i: int) {
    && Counts(stack, skipFirst, i)
    && (forall j :: i < j && Counts(stack, skipFirst, j) ==>
          EnvironmentOf(stack[j], bottom) != EnvironmentOf(stack[i], bottom))
  }

  /** Context i, at or above `from`, is the innermost one with environment e, and has this depth. */
  ghost predicate Gives(stack: seq<Context>, bottom: Bottom, skipFirst: bool, from: int, i: int, e: int, depth: int) {
    from <= i && IsInnermost(stack, bottom, skipFirst, i) && EnvironmentOf(stack[i], bottom) == e &&
      depth == stack[i].evalDepth
  }

  /** For every environment of a context that counts, the depth of the innermost such context. */
  ghost predicate IsStopMap(stops: map<int, int>, stack: seq<Context>, bottom: Bottom, skipFirst: bool) {
    && (forall i :: Counts(stack, skipFirst, i) ==> EnvironmentOf(stack[i], bottom) in stops)
    && (forall e :: e in stops ==> exists i :: Gives(stack, bottom, skipFirst, 0, i, e, stops[e]))
  }

  /** The step test in the context `current` of a stack. */
  predicate StopsIn(stops: map<int, int>, c: Context, bottom: Bottom) {
    EnvironmentOf(c, bottom) in stops && stops[EnvironmentOf(c, bottom)] >= c.evalDepth
  }

  /** Calls nest: evaluation gets deeper from caller to callee. */
  predicate Deepens(stack: seq<Context>) {
    forall i, j :: 0 <= i < j < |stack| && stack[i].isCall && stack[j].isCall ==>
        stack[i].evalDepth < stack[j].evalDepth
  }

  /** Collects the contexts to stop in, from the innermost one outwards. */
  method CollectStops(stack: seq<Context>, bottom: Bottom, stepOut: bool) returns (stops: map<int, int>)
    ensures IsStopMap(stops, stack, bottom, stepOut)
  {
    hide EnvironmentOf;
    stops := map[];
    var skipFirst := stepOut;
    var i := |stack|;
    while i > 0
      invariant 0 <= i <= |stack|
      invariant skipFirst <==> stepOut && CurrentCall(stack) < i
      invariant forall j :: i <= j && Counts(stack, stepOut, j) ==> EnvironmentOf(stack[j], bottom) in stops
      invariant forall e :: e in stops ==> exists j :: Gives(stack, bottom, stepOut, i, j, e, stops[e])
    {
      i := i - 1;
      ghost var before := stops;
      if stack[i].isCall {
        if skipFirst {
          skipFirst := false;
        } else {
          var e := EnvironmentOf(stack[i], bottom);
          if e !in stops {
            stops := stops[e := stack[i].evalDepth];
            assert Gives(stack, bottom, stepOut, i, i, e, stops[e]);
          }
        }
      }
      forall e | e in stops ensures exists j :: Gives(stack, bottom, stepOut, i, j, e, stops[e]) {
        if e in before {
          var j :| Gives(stack, bottom, stepOut, i + 1, j, e, before[e]);
          assert Gives(stack, bottom, stepOut, i, j, e, stops[e]);
        }
      }
    }
  }

  // ----- Later stacks -----

  /** The contexts up to number i are still there. */
  predicate StillLive(before: seq<Context>, now: seq<Context>, i: int) {
    0 <= i < |before| && i < |now| && now[..i + 1] == before[..i + 1]
  }

  datatype Move = Push(context: Context) | Pop

  function Moved(stack: seq<Context>, move: Move): seq<Context> {
    match move
    case Push(c) => stack + [c]
    case Pop => if stack == [] then [] else stack[..|stack| - 1]
  }

  /** The stack after all moves. */
  function AfterMoves(stack: seq<Context>, moves: seq<Move>): seq<Context> {
    if moves == [] then stack else Moved(AfterMoves(stack, moves[..|moves| - 1]), moves[|moves| - 1])
  }

  /** Context i is never left. */
  predicate NeverLeft(stack: seq<Context>, moves: seq<Move>, i: nat) {
    |AfterMoves(stack, moves)| > i && (moves != [] ==> NeverLeft(stack, moves[..|moves| - 1], i))
  }

  lemma {:induction false} NeverLeftIsLive(stack: seq<Context>, moves: seq<Move>, i: nat)
    requires i < |stack| && NeverLeft(stack, moves, i)
    ensures StillLive(stack, AfterMoves(stack, moves), i)
  {
    if moves != [] {
      NeverLeftIsLive(stack, moves[..|moves| - 1], i);
    }
  }

  /** While the context where stepping started is live, and evaluation deepens from caller to
      callee, nothing above that context stops the debugger, whatever environment it uses; the
      context itself stops it when stepping over, and does not when stepping out. */
  lemma StaysInFrame(stops: map<int, int>, before: seq<Context>, moves: seq<Move>, bottom: Bottom, stepOut: bool)
    requires IsStopMap(stops, before, bottom, stepOut) && Deepens(AfterMoves(before, moves))
    requires CurrentCall(before) >= 0 && NeverLeft(before, moves, CurrentCall(before))
    ensures
      var now := AfterMoves(before, moves);
      && CurrentCall(now) >= CurrentCall(before)
      && (StopsIn(stops, now[CurrentCall(now)], bottom) <==> CurrentCall(now) == CurrentCall(before) && !stepOut)
  {
    NeverLeftIsLive(before, moves, CurrentCall(before));
    hide EnvironmentOf, AfterMoves;
    var now := AfterMoves(before, moves);
    var f, g := CurrentCall(before), CurrentCall(now);
    LiveContext(before, now, f);
    var e := EnvironmentOf(now[g], bottom);
    if e in stops {
      var i :| Gives(before, bottom, stepOut, 0, i, e, stops[e]);
      LiveContext(before, now, i);
      assert Counts(before, stepOut, i);
      if g == f && !stepOut {
        assert Counts(before, stepOut, f);
        assert i == f;
      }
    }
  }

  lemma LiveContext(before: seq<Context>, now: seq<Context>, i: int)
    requires 0 <= i <= CurrentCall(before) && StillLive(before, now, CurrentCall(before))
    ensures now[i] == before[i]
  {
    var f := CurrentCall(before);
    assert now[i] == now[..f + 1][i] && before[i] == before[..f + 1][i];
  }

  /** When the stack has returned to a caller of the context where stepping started, the debugger
      stops there, for stepping over and stepping out alike. */
  lemma StopsInCallers(stops: map<int, int>, before: seq<Context>, moves: seq<Move>, bottom: Bottom, stepOut: bool,
                       k: nat)
    requires IsStopMap(stops, before, bottom, stepOut) && Deepens(before)
    requires k < CurrentCall(before) && NeverLeft(before, moves, k) && CurrentCall(AfterMoves(before, moves)) == k
    ensures StopsIn(stops, AfterMoves(before, moves)[k], bottom)
  {
    NeverLeftIsLive(before, moves, k);
    hide EnvironmentOf, AfterMoves;
    var now := AfterMoves(before, moves);
    assert now[k] == now[..k + 1][k] && before[k] == before[..k + 1][k];
    assert Counts(before, stepOut, k);
    var e := EnvironmentOf(before[k], bottom);
    var i :| Gives(before, bottom, stepOut, 0, i, e, stops[e]);
    assert !(i < k);
    assert before[k].evalDepth <= before[i].evalDepth;
  }
}
