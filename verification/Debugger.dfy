/** The debugger: breakpoints, the current command, and the decision to stop before a statement. */
module Debugger {
  import opened Wrappers
  import opened Breakpoints
  import BreakpointRuns
  import Stepping

  datatype Command = Continue | StepInto | StepIntoMyCode | StepOver | StepOut | Abort | RunToPosition | Pause

  /** Where a statement stands; `generated` tells whether its file is. */
  datatype Position = Position(file: Option<FileId>, generated: bool, line: nat)

  datatype Step = Aborted | Stepped(suspend: bool, fired: Option<int>)

  /** Does the current command ask to stop here? */
  predicate CommandStops(command: Command, stops: map<int, int>, target: (Option<FileId>, nat), position: Position,
                         stack: seq<Stepping.Context>, callContext: Option<Stepping.Context>, bottom: Stepping.Bottom)
    requires IsSteppingOn(command) && callContext.None? ==> Stepping.CurrentCall(stack) >= 0
  {
    match command
    case Continue => false
    case Abort => false
    case Pause => true
    case StepInto => true
    case StepIntoMyCode => position.file.Some? && !position.generated
    case StepOver => Stepping.StopsIn(stops, CallOf(stack, callContext), bottom)
    case StepOut => Stepping.StopsIn(stops, CallOf(stack, callContext), bottom)
    case RunToPosition => position.file.Some? && position.file == target.0 && position.line == target.1
  }

  predicate IsSteppingOn(command: Command) { command == StepOver || command == StepOut }

  /** The given call context, or else the current one. */
  function CallOf(stack: seq<Stepping.Context>, callContext: Option<Stepping.Context>): Stepping.Context
    requires callContext.None? ==> Stepping.CurrentCall(stack) >= 0
  {
    match callContext
    case Some(c) => c
    case None => stack[Stepping.CurrentCall(stack)]
  }

  /** What the commands that do not look at the stack ask for: a stop at every statement, at none, at
      those in files of the user's own, or at those on the line that was asked for. */
  lemma CommandsAskFor(command: Command, stops: map<int, int>, target: (Option<FileId>, nat), position: Position,
                       stack: seq<Stepping.Context>, callContext: Option<Stepping.Context>, bottom: Stepping.Bottom)
    requires !IsSteppingOn(command)
    ensures
      CommandStops(command, stops, target, position, stack, callContext, bottom) <==>
      match command
      case RunToPosition => exists file :: position.file == Some(file) && target == (Some(file), position.line)
      case StepIntoMyCode => exists file :: position == Position(Some(file), false, position.line)
      case _ => command in {Pause, StepInto}
  {
    if position.file.Some? {
      var file := position.file.value;
      assert target.0 == Some(file) && target.1 == position.line ==> target == (Some(file), position.line);
      assert !position.generated ==> position == Position(Some(file), false, position.line);
    }
  }

  class RDebugger {
    var isEnabled: bool
    var breakpointsMuted: bool
    var currentCommand: Command
    var runToPositionTarget: (Option<FileId>, nat)
    var contextsToStop: map<int, int>
    var breakpoints: map<int, Breakpoint>
    var breakpointsByLine: map<FileId, seq<seq<int>>>
    var bottom: Stepping.Bottom

    ghost function Now(): Table
      reads `breakpoints, `breakpointsByLine
    {
      Table(breakpoints, breakpointsByLine)
    }

    /** Every breakpoint once on its own line; masters and slaves inverse to each other. */
    ghost predicate Valid()
      reads `breakpoints, `breakpointsByLine
    {
      Consistent(Now())
    }

    constructor ()
      ensures Valid() && Now() == BreakpointRuns.START.table && !breakpointsMuted && !isEnabled &&
          currentCommand == Continue
    {
      isEnabled, breakpointsMuted, currentCommand, runToPositionTarget := false, false, Continue, (None, 0);
      contextsToStop, breakpoints, breakpointsByLine := map[], map[], map[];
      bottom := Stepping.Bottom(None, 0);
    }

    method MuteBreakpoints(mute: bool)
      modifies `breakpointsMuted
      ensures breakpointsMuted == mute
    {
      breakpointsMuted := mute;
    }

    method RemoveFromLine(file: FileId, line: nat, id: int)
      requires file in breakpointsByLine && line < |breakpointsByLine[file]|
      modifies `breakpointsByLine
      ensures breakpointsByLine == Unplaced(old(breakpointsByLine), file, line, id)
    {
      var lines := breakpointsByLine[file];
      breakpointsByLine := breakpointsByLine[file := lines[line := WithoutFirst(lines[line], id)]];
    }

    method AddToLine(file: FileId, line: nat, id: int)
      requires file in breakpointsByLine
      modifies `breakpointsByLine
      ensures breakpointsByLine == Placed(old(breakpointsByLine), file, line, id)
    {
      var lines := breakpointsByLine[file];
      if |lines| <= line {
        lines := lines + seq(line + 1 - |lines|, _ => []);
      }
      breakpointsByLine := breakpointsByLine[file := lines[line := lines[line] + [id]]];
    }

    method AddOrModifyBreakpoint(id: int, newFile: FileId, newLine: nat, settings: Settings)
      requires Valid()
      modifies `breakpoints, `breakpointsByLine
      ensures Valid()
      ensures id in old(breakpoints) ==>
        old(Mentions(breakpointsByLine, breakpoints[id].file, breakpoints[id].line, id))
      ensures Now() == AddOrModify(old(Now()), id, newFile, newLine, settings)
    {
      ModifyStaysConsistent(Now(), id, newFile, newLine, settings);
      hide Consistent, Placed, Unplaced, Mentions;
      if newFile !in breakpointsByLine {
        return;
      }
      if id !in breakpoints {
        breakpoints := breakpoints[id := Breakpoint(settings, newFile, newLine, None, false, [], false)];
        AddToLine(newFile, newLine, id);
      } else {
        ghost var before := breakpoints;
        var oldFile, oldLine := breakpoints[id].file, breakpoints[id].line;
        breakpoints := breakpoints[id := breakpoints[id].(settings := settings)];
        if oldFile != newFile || oldLine != newLine {
          MoveBreakpoint(id, newFile, newLine);
          UpdatedTwice(before, id, before[id].(settings := settings),
                       before[id].(settings := settings, file := newFile, line := newLine));
        }
      }
    }

    method MoveBreakpoint(id: int, newFile: FileId, newLine: nat)
      requires id in breakpoints && newFile in breakpointsByLine
      requires breakpoints[id].file in breakpointsByLine &&
          breakpoints[id].line < |breakpointsByLine[breakpoints[id].file]|
      modifies `breakpoints, `breakpointsByLine
      ensures breakpoints == old(breakpoints)[id := old(breakpoints)[id].(file := newFile, line := newLine)]
      ensures
        breakpointsByLine ==
        Placed(Unplaced(old(breakpointsByLine), old(breakpoints)[id].file, old(breakpoints)[id].line, id),
               newFile, newLine, id)
    {
      RemoveFromLine(breakpoints[id].file, breakpoints[id].line, id);
      AddToLine(newFile, newLine, id);
      breakpoints := breakpoints[id := breakpoints[id].(file := newFile, line := newLine)];
    }

    lemma UpdatedTwice(bs: map<int, Breakpoint>, id: int, b: Breakpoint, c: Breakpoint)
      ensures bs[id := b][id := c] == bs[id := c]
    {
    }

    method SetMasterBreakpoint(id: int, newMaster: Option<int>, leaveEnabled: bool)
      requires id in breakpoints && (newMaster.Some? ==> newMaster.value in breakpoints)
      requires breakpoints[id].master.Some? ==> breakpoints[id].master.value in breakpoints
      modifies `breakpoints
      ensures breakpoints == WithMaster(old(breakpoints), id, newMaster, leaveEnabled)
    {
      ghost var before := breakpoints;
      breakpoints := breakpoints[id := breakpoints[id].(slaveLeaveEnabled := leaveEnabled)];
      if breakpoints[id].master == newMaster {
        return;
      }
      breakpoints := breakpoints[id := breakpoints[id].(masterWasHit := false)];
      assert breakpoints == before[id := before[id].(slaveLeaveEnabled := leaveEnabled, masterWasHit := false)];
      ReplaceMaster(id, newMaster);
    }

    method ReplaceMaster(id: int, newMaster: Option<int>)
      requires id in breakpoints && (newMaster.Some? ==> newMaster.value in breakpoints)
      requires breakpoints[id].master.Some? ==> breakpoints[id].master.value in breakpoints
      modifies `breakpoints
      ensures
        var detached := Detached(old(breakpoints), id);
        breakpoints == if newMaster.Some? then Attached(detached, id, newMaster.value) else detached
    {
      ghost var before := breakpoints;
      if breakpoints[id].master.Some? {
        var master := breakpoints[id].master.value;
        var slaves := WithoutFirst(breakpoints[master].slaves, id);
        breakpoints := breakpoints[master := breakpoints[master].(slaves := slaves)];
      }
      ghost var fewer := breakpoints;
      breakpoints := breakpoints[id := breakpoints[id].(master := newMaster)];
      assert fewer[id := fewer[id].(master := None)] == Detached(before, id);
      UpdatedTwice(fewer, id, fewer[id].(master := None), fewer[id].(master := newMaster));
      if newMaster.Some? {
        var master := newMaster.value;
        breakpoints := breakpoints[master := breakpoints[master].(slaves := breakpoints[master].slaves + [id])];
      }
    }

    /** The request of a client, who may name breakpoints that do not exist. */
    method DebugSetMasterBreakpoint(id: int, requested: Option<int>, leaveEnabled: bool)
      requires Valid()
      modifies `breakpoints
      ensures Valid() && Now() == BreakpointRuns.MasterSet(old(Now()), id, requested, leaveEnabled)
    {
      BreakpointRuns.MasterSetStaysConsistent(Now(), id, requested, leaveEnabled);
      if id !in breakpoints {
        return;
      }
      MasterIsKnown(breakpoints, id);
      hide Consistent, WithMaster;
      var newMaster := if requested.Some? && requested.value in breakpoints then requested else None;
      SetMasterBreakpoint(id, newMaster, leaveEnabled);
    }

    method RemoveBreakpointById(id: int)
      requires Valid()
      modifies `breakpoints, `breakpointsByLine
      ensures Valid()
      ensures id in old(breakpoints) ==>
        old(Mentions(breakpointsByLine, breakpoints[id].file, breakpoints[id].line, id))
      ensures Now() == Removed(old(Now()), id)
    {
      RemoveStaysConsistent(Now(), id);
      if id !in breakpoints {
        return;
      }
      ghost var before := breakpoints;
      MasterIsKnown(breakpoints, id);
      MasterKeepsLinks(breakpoints, id, None, false);
      MasterKeepsPlaces(breakpoints, id, None, false);
      SlavesAreKnown(WithMaster(breakpoints, id, None, false), id);
      assert Isolated(before, id) == AllDetached(WithMaster(before, id, None, false),
                                                 WithMaster(before, id, None, false)[id].slaves);
      IsolatedIsAlone(breakpoints, id);
      hide Consistent, WithMaster, Linked, Isolated;
      SetMasterBreakpoint(id, None, false);
      DetachSlaves(breakpoints[id].slaves);
      RemoveFromLine(breakpoints[id].file, breakpoints[id].line, id);
      breakpoints := breakpoints - {id};
    }

    /** Takes the master away from every breakpoint of a list. */
    method DetachSlaves(slaves: seq<int>)
      requires Linked(breakpoints) && forall s <- slaves :: s in breakpoints
      modifies `breakpoints
      ensures breakpoints == AllDetached(old(breakpoints), slaves)
    {
      hide Linked, WithMaster;
      for i := 0 to |slaves|
        invariant Linked(breakpoints) && (forall s <- slaves[i..] :: s in breakpoints)
        invariant AllDetached(breakpoints, slaves[i..]) == AllDetached(old(breakpoints), slaves)
      {
        assert slaves[i..][0] == slaves[i] && slaves[i..][1..] == slaves[i + 1..];
        MasterIsKnown(breakpoints, slaves[i]);
        MasterKeepsLinks(breakpoints, slaves[i], None, false);
        SetMasterBreakpoint(slaves[i], None, false);
      }
    }

    method SetCommand(c: Command, stack: seq<Stepping.Context>)
      modifies `currentCommand, `contextsToStop
      ensures currentCommand == c
      ensures
        if c == StepOver || c == StepOut || c == RunToPosition then
            Stepping.IsStopMap(contextsToStop, stack, bottom, c == StepOut)
        else contextsToStop == old(contextsToStop)
    {
      currentCommand := c;
      if c == Continue || c == StepInto || c == StepIntoMyCode || c == Abort || c == Pause {
        return;
      }
      contextsToStop := Stepping.CollectStops(stack, bottom, c == StepOut);
    }

    method SetRunToPositionCommand(file: Option<FileId>, line: nat)
      modifies `currentCommand, `runToPositionTarget
      ensures currentCommand == RunToPosition && runToPositionTarget == (file, line)
    {
      currentCommand := RunToPosition;
      runToPositionTarget := (file, line);
    }

    /** Sets and clears what a firing breakpoint changes. */
    method HitBreakpoint(id: int)
      requires Valid() && id in breakpoints && CanFire(breakpoints[id])
      modifies `breakpoints, `breakpointsByLine
      ensures Valid() && Now() == AfterHit(old(Now()), id)
    {
      HitStaysConsistent(Now(), id);
      ghost var before := breakpoints;
      SlavesAreKnown(breakpoints, id);
      HitKeepsLinks(breakpoints, id);
      PlacesKeepIndex(Now(), Hit(breakpoints, id));
      var slaves, leaveEnabled, removeAfterHit :=
        breakpoints[id].slaves, breakpoints[id].slaveLeaveEnabled, breakpoints[id].settings.removeAfterHit;
      if !leaveEnabled {
        breakpoints := breakpoints[id := breakpoints[id].(masterWasHit := false)];
      }
      ghost var own := breakpoints;
      WakeSlaves(slaves);
      WokenIsHit(before, own, breakpoints, id);
      hide Hit, Indexed, Linked, Removed;
      if removeAfterHit {
        RemoveBreakpointById(id);
      }
    }

    lemma WokenIsHit(before: map<int, Breakpoint>, own: map<int, Breakpoint>, after: map<int, Breakpoint>, id: int)
      requires id in before
      requires own == if before[id].slaveLeaveEnabled then before else before[id := before[id].(masterWasHit := false)]
      requires after.Keys == own.Keys
      requires forall k :: k in own ==>
        after[k] == if k in before[id].slaves then own[k].(masterWasHit := true) else own[k]
      ensures after == Hit(before, id)
    {
      var hit := Hit(before, id);
      assert after.Keys == hit.Keys;
      forall k | k in after ensures after[k] == hit[k] {}
    }

    method WakeSlaves(slaves: seq<int>)
      requires forall s <- slaves :: s in breakpoints
      modifies `breakpoints
      ensures breakpoints.Keys == old(breakpoints).Keys
      ensures forall k :: k in breakpoints ==>
        breakpoints[k] == if k in slaves then old(breakpoints)[k].(masterWasHit := true) else old(breakpoints)[k]
    {
      for i := 0 to |slaves|
        invariant breakpoints.Keys == old(breakpoints).Keys && forall s <- slaves :: s in breakpoints
        invariant forall k :: k in breakpoints ==>
          breakpoints[k] == if k in slaves[..i] then old(breakpoints)[k].(masterWasHit := true) else old(breakpoints)[k]
      {
        assert slaves[i] in slaves;
        breakpoints := breakpoints[slaves[i] := breakpoints[slaves[i]].(masterWasHit := true)];
        assert slaves[..i + 1] == slaves[..i] + [slaves[i]];
      }
      assert slaves[..|slaves|] == slaves;
    }

    /** Is the call one of those to stop in, or as shallow as the recorded one? */
    method StepTest(stack: seq<Stepping.Context>, callContext: Option<Stepping.Context>) returns (stops: bool)
      requires callContext.None? ==> Stepping.CurrentCall(stack) >= 0
      ensures stops == Stepping.StopsIn(contextsToStop, CallOf(stack, callContext), bottom)
    {
      var call;
      if callContext.Some? {
        call := callContext.value;
      } else {
        var i := Stepping.GetCurrentCallContext(stack);
        call := stack[i];
      }
      var environment := Stepping.EnvironmentOf(call, bottom);
      stops := environment in contextsToStop && contextsToStop[environment] >= call.evalDepth;
    }

    /** The decision before a statement. The statement's own flag, the value of the breakpoint's
        condition and the stack of contexts are given, and for some callers the call context. */
    method DoStep(position: Position, noBreakpoint: bool, conditionHolds: bool, alwaysStop: bool,
                  stack: seq<Stepping.Context>, callContext: Option<Stepping.Context>)
      returns (step: Step)
      requires Valid()
      requires IsSteppingOn(currentCommand) && callContext.None? ==> Stepping.CurrentCall(stack) >= 0
      modifies `currentCommand, `breakpoints, `breakpointsByLine
      ensures Valid()
      ensures step.Aborted? <==> isEnabled && old(currentCommand) == Abort
      ensures step.Aborted? ==> Now() == old(Now()) && currentCommand == Continue
      ensures step.Stepped? ==>
        && currentCommand == old(currentCommand)
        && step.fired == (
             if !isEnabled then None
             else Fired(old(Now()), breakpointsMuted, position.file, position.line, noBreakpoint, conditionHolds))
        && Now() == (if step.fired.Some? then AfterHit(old(Now()), step.fired.value) else old(Now()))
        && (step.suspend <==>
              && isEnabled
              && (|| CommandStops(currentCommand, contextsToStop, runToPositionTarget, position,
                                  stack, callContext, bottom)
                  || (step.fired.Some? && old(breakpoints)[step.fired.value].settings.suspend)
                  || alwaysStop))
    {
      hide Consistent, AfterHit;
      if !isEnabled {
        return Stepped(false, None);
      }
      if currentCommand == Abort {
        currentCommand := Continue;
        return Aborted;
      }
      var suspend := false;
      match currentCommand {
        case Continue =>
        case Pause => suspend := true;
        case StepInto => suspend := true;
        case StepIntoMyCode => suspend := position.file.Some? && !position.generated;
        case Abort =>
        case StepOver => suspend := StepTest(stack, callContext);
        case StepOut => suspend := StepTest(stack, callContext);
        case RunToPosition =>
          suspend := position.file.Some? && position.file == runToPositionTarget.0 &&
            position.line == runToPositionTarget.1;
      }
      var fired := Fired(Table(breakpoints, breakpointsByLine), breakpointsMuted, position.file, position.line,
                         noBreakpoint, conditionHolds);
      if fired.Some? {
        if breakpoints[fired.value].settings.suspend {
          suspend := true;
        }
        HitBreakpoint(fired.value);
      }
      if alwaysStop {
        suspend := true;
      }
      return Stepped(suspend, fired);
    }

    /** From a stepping command to a later statement, reached by `moves` on the stack of contexts. In
        the frame and above it the debugger suspends exactly when stepping over and back in the frame,
        or when a suspending breakpoint fires or it must stop anyway; in a caller it always suspends. */
    method StepFrom(stepOut: bool, before: seq<Stepping.Context>, moves: seq<Stepping.Move>,
                    position: Position, noBreakpoint: bool, conditionHolds: bool, alwaysStop: bool)
      returns (step: Step)
      requires Valid() && isEnabled
      requires Stepping.CurrentCall(before) >= 0 && Stepping.CurrentCall(Stepping.AfterMoves(before, moves)) >= 0
      requires Stepping.Deepens(before) && Stepping.Deepens(Stepping.AfterMoves(before, moves))
      modifies `currentCommand, `contextsToStop, `breakpoints, `breakpointsByLine
      ensures Valid() && step.Stepped? && currentCommand == if stepOut then StepOut else StepOver
      ensures step.fired ==
        Fired(old(Now()), breakpointsMuted, position.file, position.line, noBreakpoint, conditionHolds)
      ensures
        var frame, here := Stepping.CurrentCall(before), Stepping.CurrentCall(Stepping.AfterMoves(before, moves));
        var stopped := alwaysStop || (step.fired.Some? && old(breakpoints)[step.fired.value].settings.suspend);
        && (Stepping.NeverLeft(before, moves, frame) ==>
              here >= frame && (step.suspend <==> (here == frame && !stepOut) || stopped))
        && (here < frame && Stepping.NeverLeft(before, moves, here) ==> step.suspend)
    {
      hide Stepping.AfterMoves, Stepping.NeverLeft, Stepping.Deepens, Stepping.IsStopMap, Stepping.StopsIn, Fired,
           AfterHit, Consistent;
      SetCommand(if stepOut then StepOut else StepOver, before);
      ghost var frame, here := Stepping.CurrentCall(before), Stepping.CurrentCall(Stepping.AfterMoves(before, moves));
      if Stepping.NeverLeft(before, moves, frame) {
        Stepping.StaysInFrame(contextsToStop, before, moves, bottom, stepOut);
      } else if here < frame && Stepping.NeverLeft(before, moves, here) {
        Stepping.StopsInCallers(contextsToStop, before, moves, bottom, stepOut, here);
      }
      step := DoStep(position, noBreakpoint, conditionHolds, alwaysStop, Stepping.AfterMoves(before, moves), None);
    }
  }
}
