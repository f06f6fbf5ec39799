/** When exactly a breakpoint fires, told by what happened before. */
module BreakpointFiring {
  import opened Wrappers
  import opened Breakpoints
  import opened BreakpointRuns

  // ----- What one event does to one breakpoint -----

  /** The event places the breakpoint or changes its settings: its file is known. */
  predicate Places(s: State, e: Event, id: int) {
    e.Modify? && e.id == id && e.file in s.table.files
  }

  /** The event takes the breakpoint away, by request or because it is to be removed when hit. */
  predicate TakesAway(s: State, e: Event, id: int) {
    e == Remove(id) ||
    (FiredBy(s, e) == Some(id) && id in s.table.breakpoints && s.table.breakpoints[id].settings.removeAfterHit)
  }

  predicate SamePlaceAndSettings(b: Breakpoint, c: Breakpoint) {
    b.settings == c.settings && b.file == c.file && b.line == c.line
  }

  lemma RemovedOthers(t: Table, id: int, k: int)
    requires Consistent(t) && id in t.breakpoints
    ensures Mentions(t.files, t.breakpoints[id].file, t.breakpoints[id].line, id)
    ensures k in Removed(t, id).breakpoints <==> k in t.breakpoints && k != id
    ensures k in t.breakpoints && k != id ==>
      SameButSlaves(if t.breakpoints[k].master == Some(id) then Freed(t.breakpoints[k]) else t.breakpoints[k],
                    Removed(t, id).breakpoints[k])
  {
    RemoveEffect(t, id);
    hide Removed, Consistent;
  }

  /** A breakpoint after id has fired. */
  lemma HitOthers(t: Table, id: int, k: int)
    requires Consistent(t) && id in t.breakpoints && CanFire(t.breakpoints[id])
    ensures k in AfterHit(t, id).breakpoints <==>
              k in t.breakpoints && (k == id ==> !t.breakpoints[id].settings.removeAfterHit)
    ensures
      k in AfterHit(t, id).breakpoints ==>
        var b := Hit(t.breakpoints, id)[k];
        SameButSlaves(if b.master == Some(id) && t.breakpoints[id].settings.removeAfterHit then Freed(b) else b,
                      AfterHit(t, id).breakpoints[k])
  {
    var now := t.(breakpoints := Hit(t.breakpoints, id));
    HitKeepsLinks(t.breakpoints, id);
    PlacesKeepIndex(t, now.breakpoints);
    HitEffect(t.breakpoints, id);
    hide Linked, Indexed, Hit, Removed;
    if t.breakpoints[id].settings.removeAfterHit { RemovedOthers(now, id, k); }
  }

  /** Who is there after an event, where, and with which settings. */
  predicate LivesOn(s: State, e: Event, now: Table, id: int) {
    && (id in now.breakpoints <==> Places(s, e, id) || (id in s.table.breakpoints && !TakesAway(s, e, id)))
    && (id in now.breakpoints ==>
          var b := now.breakpoints[id];
          if Places(s, e, id) then b.settings == e.settings && b.file == e.file && b.line == e.line
          else SamePlaceAndSettings(s.table.breakpoints[id], b))
  }

  lemma LifeOfModify(s: State, e: Event, id: int)
    requires Consistent(s.table) && e.Modify?
    ensures LivesOn(s, e, Next(s, e).table, id)
  {
    hide AddOrModify, Consistent;
    ModifyStaysConsistent(s.table, e.id, e.file, e.line, e.settings);
  }

  lemma LifeOfRemove(s: State, e: Event, id: int)
    requires Consistent(s.table) && e.Remove?
    ensures LivesOn(s, e, Next(s, e).table, id)
  {
    hide Linked, Indexed, Isolated, Unplaced;
    RemoveStaysConsistent(s.table, e.id);
    if e.id in s.table.breakpoints { RemovedOthers(s.table, e.id, id); }
  }

  lemma LifeOfMaster(s: State, e: Event, id: int)
    requires Consistent(s.table) && e.SetMaster?
    ensures LivesOn(s, e, Next(s, e).table, id)
  {
    hide WithMaster, Linked, Indexed;
    var bs := s.table.breakpoints;
    if e.id in bs {
      MasterIsKnown(bs, e.id);
      var master := if e.requested.Some? && e.requested.value in bs then e.requested else None;
      MasterEffect(bs, e.id, master, e.leaveEnabled);
    }
  }

  lemma LifeOfReach(s: State, e: Event, id: int)
    requires Consistent(s.table) && e.Reach?
    ensures LivesOn(s, e, Next(s, e).table, id)
  {
    hide Fired, AfterHit, Linked, Indexed, Hit;
    var fired := FiredBy(s, e);
    if fired.Some? {
      HitOthers(s.table, fired.value, id);
      HitEffect(s.table.breakpoints, fired.value);
    }
  }

  lemma LifeStep(s: State, e: Event, id: int)
    requires Consistent(s.table)
    ensures LivesOn(s, e, Next(s, e).table, id)
  {
    match e {
      case Modify(_, _, _, _) => LifeOfModify(s, e, id);
      case Remove(_) => LifeOfRemove(s, e, id);
      case SetMaster(_, _, _) => LifeOfMaster(s, e, id);
      case Reach(_, _, _, _) => LifeOfReach(s, e, id);
      case _ =>
    }
    hide AddOrModify, Removed, MasterSet, AfterHit, Consistent, Fired;
  }

  // ----- What one event does to a slave -----

  /** The slave is there and has been woken. */
  predicate IsAwake(t: Table, id: int) { id in t.breakpoints && t.breakpoints[id].masterWasHit }

  predicate HasMasterIn(t: Table, id: int, master: int) {
    id in t.breakpoints && t.breakpoints[id].master == Some(master)
  }

  predicate IsLeftEnabled(t: Table, id: int) { id in t.breakpoints && t.breakpoints[id].slaveLeaveEnabled }

  /** A slave is awake after an event exactly if it had this master before, and the master fired, or it
      was awake and did not just fire without being left enabled. */
  predicate WakesOn(s: State, e: Event, now: Table, id: int, master: int) {
    HasMasterIn(now, id, master) ==>
      (IsAwake(now, id) <==>
       HasMasterIn(s.table, id, master) &&
       (FiredBy(s, e) == Some(master) ||
        (IsAwake(s.table, id) && (FiredBy(s, e) == Some(id) ==> IsLeftEnabled(s.table, id)))))
  }

  lemma WakeOfModify(s: State, e: Event, id: int, master: int)
    requires Consistent(s.table) && e.Modify?
    ensures WakesOn(s, e, Next(s, e).table, id, master)
  {
    hide AddOrModify, Consistent;
    ModifyStaysConsistent(s.table, e.id, e.file, e.line, e.settings);
  }

  lemma WakeOfRemove(s: State, e: Event, id: int, master: int)
    requires Consistent(s.table) && e.Remove?
    ensures WakesOn(s, e, Next(s, e).table, id, master)
  {
    hide Linked, Indexed, Isolated, Unplaced;
    RemoveStaysConsistent(s.table, e.id);
    if e.id in s.table.breakpoints { RemovedOthers(s.table, e.id, id); }
  }

  lemma WakeOfMaster(s: State, e: Event, id: int, master: int)
    requires Consistent(s.table) && e.SetMaster?
    ensures WakesOn(s, e, Next(s, e).table, id, master)
  {
    hide WithMaster, Linked, Indexed;
    var bs := s.table.breakpoints;
    if e.id in bs {
      MasterIsKnown(bs, e.id);
      var known := if e.requested.Some? && e.requested.value in bs then e.requested else None;
      MasterEffect(bs, e.id, known, e.leaveEnabled);
    }
  }

  lemma WakeOfReach(s: State, e: Event, id: int, master: int)
    requires Consistent(s.table) && e.Reach?
    ensures WakesOn(s, e, Next(s, e).table, id, master)
  {
    hide Fired, AfterHit, Linked, Indexed, Hit;
    var fired := FiredBy(s, e);
    if fired.Some? {
      HitOthers(s.table, fired.value, id);
      HitEffect(s.table.breakpoints, fired.value);
      NotItsOwnMaster(s.table.breakpoints, fired.value);
    }
  }

  lemma WakeStep(s: State, e: Event, id: int, master: int)
    requires Consistent(s.table)
    ensures WakesOn(s, e, Next(s, e).table, id, master)
  {
    match e {
      case Modify(_, _, _, _) => WakeOfModify(s, e, id, master);
      case Remove(_) => WakeOfRemove(s, e, id, master);
      case SetMaster(_, _, _) => WakeOfMaster(s, e, id, master);
      case Reach(_, _, _, _) => WakeOfReach(s, e, id, master);
      case _ =>
    }
    hide AddOrModify, Removed, MasterSet, AfterHit, Consistent, Fired;
  }

  // ----- What one event does to a line -----

  function LineOf(t: Table, file: FileId, line: nat): seq<int> {
    if file in t.files && line < |t.files[file]| then t.files[file][line] else []
  }

  /** a stands in front of b. */
  predicate Precedes(ids: seq<int>, a: int, b: int) {
    exists p, q :: 0 <= p < q < |ids| && ids[p] == a && ids[q] == b
  }

  /** Those who stay keep their order, and who comes stands behind them. */
  ghost predicate KeepsOrder(before: seq<int>, after: seq<int>) {
    && NoDuplicates(after)
    && (forall a, b {:trigger Precedes(after, a, b)} :: a in before && b in before && a in after && b in after ==>
          (Precedes(after, a, b) <==> Precedes(before, a, b)))
    && (forall a, b {:trigger Precedes(after, a, b)} :: a in before && b !in before && a in after && b in after ==>
          Precedes(after, a, b))
    && (forall a, b :: a !in before && b !in before && a in after && b in after ==> a == b)
  }

  lemma SameOrder(ids: seq<int>)
    requires NoDuplicates(ids)
    ensures KeepsOrder(ids, ids)
  {
  }

  lemma {:induction false} TakenOutOrder(ids: seq<int>, x: int, a: int, b: int)
    requires NoDuplicates(ids) && a != x && b != x
    ensures Precedes(WithoutFirst(ids, x), a, b) <==> Precedes(ids, a, b)
  {
    if ids != [] {
      if ids[0] == x {
        InFront(ids, a, b);
      } else {
        TakenOutOrder(ids[1..], x, a, b);
        WithoutFirstRemoves(ids[1..], x);
        InFront(ids, a, b);
        InFront([ids[0]] + WithoutFirst(ids[1..], x), a, b);
        assert ([ids[0]] + WithoutFirst(ids[1..], x))[1..] == WithoutFirst(ids[1..], x);
      }
    }
  }

  /** Either the first one is a, or both stand among the others. */
  lemma InFront(ids: seq<int>, a: int, b: int)
    requires ids != []
    ensures Precedes(ids, a, b) <==> (ids[0] == a && b in ids[1..]) || Precedes(ids[1..], a, b)
  {
    var tail := ids[1..];
    if Precedes(ids, a, b) {
      var p, q :| 0 <= p < q < |ids| && ids[p] == a && ids[q] == b;
      assert tail[q - 1] == b;
      if p > 0 { assert tail[p - 1] == a; }
    }
    if ids[0] == a && b in tail {
      var q :| 0 <= q < |tail| && tail[q] == b;
      assert ids[0] == a && ids[q + 1] == b;
    }
    if Precedes(tail, a, b) {
      var p, q :| 0 <= p < q < |tail| && tail[p] == a && tail[q] == b;
      assert ids[p + 1] == a && ids[q + 1] == b;
    }
  }

  lemma WithoutKeepsOrder(ids: seq<int>, x: int)
    requires NoDuplicates(ids)
    ensures KeepsOrder(ids, WithoutFirst(ids, x))
  {
    WithoutFirstRemoves(ids, x);
    forall a, b | a in WithoutFirst(ids, x) && b in WithoutFirst(ids, x)
      ensures Precedes(WithoutFirst(ids, x), a, b) <==> Precedes(ids, a, b)
    {
      TakenOutOrder(ids, x, a, b);
    }
    hide Precedes, NoDuplicates, WithoutFirst;
  }

  lemma AppendedOrder(ids: seq<int>, x: int, a: int, b: int)
    requires NoDuplicates(ids) && x !in ids
    ensures a in ids && b in ids ==> (Precedes(ids + [x], a, b) <==> Precedes(ids, a, b))
    ensures a in ids ==> Precedes(ids + [x], a, x)
  {
    var now := ids + [x];
    if a in ids && b in ids && Precedes(now, a, b) {
      var p, q :| 0 <= p < q < |now| && now[p] == a && now[q] == b;
      assert q < |ids|;
      assert ids[p] == a && ids[q] == b;
    }
    if Precedes(ids, a, b) {
      var p, q :| 0 <= p < q < |ids| && ids[p] == a && ids[q] == b;
      assert now[p] == a && now[q] == b;
    }
    if a in ids {
      var p :| 0 <= p < |ids| && ids[p] == a;
      assert now[p] == a && now[|ids|] == x;
    }
  }

  lemma AppendKeepsOrder(ids: seq<int>, x: int)
    requires NoDuplicates(ids) && x !in ids
    ensures KeepsOrder(ids, ids + [x])
  {
    forall a, b | a in ids && b in ids ensures Precedes(ids + [x], a, b) <==> Precedes(ids, a, b) {
      AppendedOrder(ids, x, a, b);
    }
    forall a | a in ids ensures Precedes(ids + [x], a, x) { AppendedOrder(ids, x, a, x); }
    hide Precedes;
  }

  lemma LinesAreOnce(t: Table, file: FileId, line: nat)
    requires Indexed(t)
    ensures NoDuplicates(LineOf(t, file, line))
  {
  }

  lemma StandsWhere(t: Table, file: FileId, line: nat, id: int)
    requires Indexed(t)
    ensures id in LineOf(t, file, line) <==>
              id in t.breakpoints && t.breakpoints[id].file == file && t.breakpoints[id].line == line
  {
    assert id in LineOf(t, file, line) <==> Mentions(t.files, file, line, id);
  }

  lemma UnplacedLine(t: Table, bs: map<int, Breakpoint>, from: FileId, at: nat, id: int, file: FileId, line: nat)
    requires from in t.files && at < |t.files[from]|
    ensures LineOf(Table(bs, Unplaced(t.files, from, at, id)), file, line) ==
              if file == from && line == at then WithoutFirst(LineOf(t, file, line), id) else LineOf(t, file, line)
  {
  }

  lemma PlacedLineOf(t: Table, bs: map<int, Breakpoint>, to: FileId, at: nat, id: int, file: FileId, line: nat)
    requires to in t.files
    ensures LineOf(Table(bs, Placed(t.files, to, at, id)), file, line) ==
              if file == to && line == at then LineOf(t, file, line) + [id] else LineOf(t, file, line)
  {
    var now := Placed(t.files, to, at, id);
    if file in now && line < |now[file]| { PlacedLine(t.files, to, at, id, file, line); }
    PlacedKeys(t.files, to, at, id);
    PlacedMentions(t.files, to, at, id);
  }

  lemma RemovedLine(t: Table, id: int, file: FileId, line: nat)
    requires Consistent(t)
    ensures id in t.breakpoints ==> Mentions(t.files, t.breakpoints[id].file, t.breakpoints[id].line, id)
    ensures KeepsOrder(LineOf(t, file, line), LineOf(Removed(t, id), file, line))
  {
    RemoveStaysConsistent(t, id);
    LinesAreOnce(t, file, line);
    SameOrder(LineOf(t, file, line));
    if id in t.breakpoints {
      var b := t.breakpoints[id];
      UnplacedLine(t, Isolated(t.breakpoints, id) - {id}, b.file, b.line, id, file, line);
      WithoutKeepsOrder(LineOf(t, file, line), id);
    }
    hide Consistent, Isolated, Unplaced, KeepsOrder, LineOf, WithoutFirst, NoDuplicates;
  }

  lemma ModifiedLine(t: Table, id: int, to: FileId, at: nat, settings: Settings, file: FileId, line: nat)
    requires Consistent(t)
    ensures id in t.breakpoints ==> Mentions(t.files, t.breakpoints[id].file, t.breakpoints[id].line, id)
    ensures KeepsOrder(LineOf(t, file, line), LineOf(AddOrModify(t, id, to, at, settings), file, line))
  {
    ModifyStaysConsistent(t, id, to, at, settings);
    var before := LineOf(t, file, line);
    LinesAreOnce(t, file, line);
    StandsWhere(t, file, line, id);
    SameOrder(before);
    if id !in before { AppendKeepsOrder(before, id); }
    WithoutKeepsOrder(before, id);
    var now := AddOrModify(t, id, to, at, settings);
    if to in t.files && id in t.breakpoints {
      var b := t.breakpoints[id];
      UnplacedLine(t, now.breakpoints, b.file, b.line, id, file, line);
      var gone := Table(now.breakpoints, Unplaced(t.files, b.file, b.line, id));
      KeysStay(t.files, b.file, b.line, id, to, at);
      PlacedLineOf(gone, now.breakpoints, to, at, id, file, line);
    } else if to in t.files {
      PlacedLineOf(t, now.breakpoints, to, at, id, file, line);
    }
    hide Consistent, Placed, Unplaced, KeepsOrder, WithoutFirst, NoDuplicates;
  }

  lemma LineStep(s: State, e: Event, file: FileId, line: nat)
    requires Consistent(s.table)
    ensures KeepsOrder(LineOf(s.table, file, line), LineOf(Next(s, e).table, file, line))
  {
    LinesAreOnce(s.table, file, line);
    SameOrder(LineOf(s.table, file, line));
    match e {
      case Modify(id, to, at, settings) => ModifiedLine(s.table, id, to, at, settings, file, line);
      case Remove(id) => RemovedLine(s.table, id, file, line);
      case Reach(_, _, _, _) =>
        var fired := FiredBy(s, e);
        if fired.Some? { HitLine(s.table, fired.value, file, line); }
      case _ =>
    }
    hide AddOrModify, Removed, AfterHit, Consistent, Fired, KeepsOrder;
  }

  lemma HitLine(t: Table, id: int, file: FileId, line: nat)
    requires Consistent(t) && id in t.breakpoints && CanFire(t.breakpoints[id])
    ensures KeepsOrder(LineOf(t, file, line), LineOf(AfterHit(t, id), file, line))
  {
    var now := t.(breakpoints := Hit(t.breakpoints, id));
    HitKeepsLinks(t.breakpoints, id);
    PlacesKeepIndex(t, now.breakpoints);
    LinesAreOnce(t, file, line);
    SameOrder(LineOf(t, file, line));
    RemovedLine(now, id, file, line);
    assert LineOf(now, file, line) == LineOf(t, file, line);
    hide Linked, Indexed, Hit, Removed, KeepsOrder;
  }

  // ----- What has happened so far -----

  /** The last request to mute or unmute, if any, was to mute. */
  ghost predicate MutedAt(run: seq<Event>, n: nat)
    requires n <= |run|
  {
    exists i: nat | i < n :: run[i] == Mute(true) && forall j | i < j < n :: !run[j].Mute?
  }

  /** Event i is the last one that placed the breakpoint, which has not been taken away since. */
  ghost predicate SetAt(run: seq<Event>, i: nat, n: nat, id: int)
    requires n <= |run|
  {
    && i < n && Places(After(run, i), run[i], id)
    && forall j: nat | i < j < n :: !Places(After(run, j), run[j], id) && !TakesAway(After(run, j), run[j], id)
  }

  predicate Stands(run: seq<Event>, n: nat, id: int, file: FileId, line: nat)
    requires n <= |run|
  {
    id in LineOf(After(run, n).table, file, line)
  }

  /** From some moment on the breakpoint a stood there, and b did not at that moment. */
  ghost predicate CameFirst(run: seq<Event>, n: nat, a: int, b: int, file: FileId, line: nat)
    requires n <= |run|
  {
    exists i: nat | i <= n ::
      !Stands(run, i, b, file, line) && forall j: nat | i <= j <= n :: Stands(run, j, a, file, line)
  }

  /** At event k the master fired, and it has been the master since; the slave has not fired since,
      unless it is to be left enabled. */
  ghost predicate WokenAt(run: seq<Event>, k: nat, n: nat, id: int, master: int)
    requires n < |run|
  {
    && k < n && FiresAt(run, k, master) && KeepsMaster(run, k, n, id, master)
    && forall i: nat | k < i < n :: FiresAt(run, i, id) ==> IsLeftEnabled(After(run, i).table, id)
  }

  lemma MuteAt(run: seq<Event>, n: nat)
    requires 0 < n <= |run|
    ensures After(run, n).muted == if run[n - 1].Mute? then run[n - 1].mute else After(run, n - 1).muted
  {
    hide After, Next, Consistent;
    AfterNext(run, n - 1);
    MuteStep(After(run, n - 1), run[n - 1]);
  }

  lemma JustMuted(run: seq<Event>, n: nat)
    requires 0 < n <= |run| && run[n - 1].Mute?
    ensures MutedAt(run, n) <==> run[n - 1].mute
  {
    if run[n - 1].mute { assert run[n - 1] == Mute(true); }
  }

  lemma {:induction false} MutedIsLast(run: seq<Event>, n: nat)
    requires n <= |run|
    ensures After(run, n).muted <==> MutedAt(run, n)
  {
    if n > 0 {
      MuteAt(run, n);
      hide After, MutedAt;
      if run[n - 1].Mute? {
        JustMuted(run, n);
      } else {
        MutedIsLast(run, n - 1);
        MutedStays(run, n);
      }
    }
  }

  lemma MutedStays(run: seq<Event>, n: nat)
    requires 0 < n <= |run| && !run[n - 1].Mute?
    ensures MutedAt(run, n) <==> MutedAt(run, n - 1)
  {
    if MutedAt(run, n - 1) {
      var i: nat :| i < n - 1 && run[i] == Mute(true) && forall j | i < j < n - 1 :: !run[j].Mute?;
      assert run[i] == Mute(true) && forall j | i < j < n :: !run[j].Mute?;
    }
    if MutedAt(run, n) {
      var i: nat :| i < n && run[i] == Mute(true) && forall j | i < j < n :: !run[j].Mute?;
      assert i < n - 1;
    }
  }

  lemma MuteStep(s: State, e: Event)
    requires Consistent(s.table)
    ensures Next(s, e).muted == if e.Mute? then e.mute else s.muted
  {
    hide Consistent, AddOrModify, Removed, MasterSet, AfterHit;
  }

  // ----- The breakpoint and its settings -----

  lemma SetAtStep(run: seq<Event>, i: nat, n: nat, id: int)
    requires 0 < n <= |run|
    ensures SetAt(run, i, n, id) <==>
              if i == n - 1 then Places(After(run, n - 1), run[n - 1], id)
              else SetAt(run, i, n - 1, id) && !Places(After(run, n - 1), run[n - 1], id) &&
                   !TakesAway(After(run, n - 1), run[n - 1], id)
  {
    hide After, Places, TakesAway;
  }

  lemma LifeAt(run: seq<Event>, n: nat, id: int)
    requires 0 < n <= |run|
    ensures LivesOn(After(run, n - 1), run[n - 1], After(run, n).table, id)
  {
    hide After, Next, Consistent, LivesOn;
    AfterNext(run, n - 1);
    LifeStep(After(run, n - 1), run[n - 1], id);
  }

  lemma NothingAtStart(run: seq<Event>, id: int)
    ensures id !in After(run, 0).table.breakpoints
  {
  }

  predicate IsAs(t: Table, id: int, e: Event) {
    e.Modify? && id in t.breakpoints && t.breakpoints[id].settings == e.settings &&
    t.breakpoints[id].file == e.file && t.breakpoints[id].line == e.line
  }

  lemma StaysAs(s: State, e: Event, now: Table, id: int, set_: Event)
    requires LivesOn(s, e, now, id) && IsAs(s.table, id, set_) && !Places(s, e, id) && !TakesAway(s, e, id)
    ensures IsAs(now, id, set_)
  {
    hide Places, TakesAway;
  }

  lemma JustSet(s: State, e: Event, now: Table, id: int)
    requires LivesOn(s, e, now, id) && Places(s, e, id)
    ensures IsAs(now, id, e)
  {
    hide TakesAway;
  }

  /** It is as it was set last. */
  lemma {:induction false} IsAsSet(run: seq<Event>, i: nat, n: nat, id: int)
    requires n <= |run| && SetAt(run, i, n, id)
    ensures i < n && IsAs(After(run, n).table, id, run[i])
  {
    hide After, TakesAway, SetAt, Places, LivesOn, IsAs;
    SetIsBefore(run, i, n, id);
    SetAtStep(run, i, n, id);
    LifeAt(run, n, id);
    if i < n - 1 {
      IsAsSet(run, i, n - 1, id);
      StaysAs(After(run, n - 1), run[n - 1], After(run, n).table, id, run[i]);
    } else {
      JustSet(After(run, n - 1), run[n - 1], After(run, n).table, id);
    }
  }

  /** A breakpoint that is there has been set. */
  lemma {:induction false} WasSet(run: seq<Event>, n: nat, id: int) returns (i: nat)
    requires n <= |run| && id in After(run, n).table.breakpoints
    ensures SetAt(run, i, n, id)
  {
    hide After, TakesAway, SetAt, Places, SamePlaceAndSettings;
    NothingAtStart(run, id);
    LifeAt(run, n, id);
    if Places(After(run, n - 1), run[n - 1], id) {
      i := n - 1;
    } else {
      i := WasSet(run, n - 1, id);
      SetIsBefore(run, i, n - 1, id);
    }
    SetAtStep(run, i, n, id);
  }

  lemma SetIsBefore(run: seq<Event>, i: nat, n: nat, id: int)
    requires n <= |run| && SetAt(run, i, n, id)
    ensures i < n
  {
    hide After, Places, TakesAway;
  }

  // ----- The master -----

  lemma WokenStep(run: seq<Event>, k: nat, n: nat, id: int, master: int)
    requires k + 1 < n < |run| && HasMaster(After(run, n), id, master)
    ensures WokenAt(run, k, n, id, master) <==>
              WokenAt(run, k, n - 1, id, master) &&
              (FiresAt(run, n - 1, id) ==> IsLeftEnabled(After(run, n - 1).table, id))
  {
    hide After, IsLeftEnabled, HasMaster, FiresAt;
    if WokenAt(run, k, n - 1, id, master) {
      forall j: nat | k <= j <= n ensures HasMaster(After(run, j), id, master) {}
    }
  }

  lemma JustWoken(run: seq<Event>, n: nat, id: int, master: int)
    requires 0 < n < |run| && HasMaster(After(run, n), id, master)
    ensures WokenAt(run, n - 1, n, id, master) <==>
              FiresAt(run, n - 1, master) && HasMaster(After(run, n - 1), id, master)
  {
    hide After, IsLeftEnabled, HasMaster, FiresAt;
    if HasMaster(After(run, n - 1), id, master) {
      forall j: nat | n - 1 <= j <= n ensures HasMaster(After(run, j), id, master) { assert j == n - 1 || j == n; }
    }
  }

  ghost predicate IsWoken(run: seq<Event>, n: nat, id: int, master: int)
    requires n < |run|
  {
    exists k: nat :: WokenAt(run, k, n, id, master)
  }

  lemma WokenIsBefore(run: seq<Event>, k: nat, n: nat, id: int, master: int)
    requires n < |run| && WokenAt(run, k, n, id, master)
    ensures k < n && (k + 1 < n ==> HasMaster(After(run, n - 1), id, master))
  {
    hide After, HasMaster, FiresAt, IsLeftEnabled;
  }

  lemma IsWokenStep(run: seq<Event>, n: nat, id: int, master: int)
    requires 0 < n < |run| && HasMaster(After(run, n), id, master)
    ensures IsWoken(run, n, id, master) <==>
              HasMaster(After(run, n - 1), id, master) &&
              (FiresAt(run, n - 1, master) ||
               (IsWoken(run, n - 1, id, master) &&
                (FiresAt(run, n - 1, id) ==> IsLeftEnabled(After(run, n - 1).table, id))))
  {
    hide After, IsLeftEnabled, HasMaster, FiresAt, WokenAt;
    JustWoken(run, n, id, master);
    if IsWoken(run, n, id, master) {
      var k: nat :| WokenAt(run, k, n, id, master);
      WokenIsBefore(run, k, n, id, master);
      if k + 1 < n { WokenStep(run, k, n, id, master); }
    }
    if IsWoken(run, n - 1, id, master) {
      var k: nat :| WokenAt(run, k, n - 1, id, master);
      WokenIsBefore(run, k, n - 1, id, master);
      WokenStep(run, k, n, id, master);
    }
  }

  lemma WakeAt(run: seq<Event>, n: nat, id: int, master: int)
    requires 0 < n <= |run|
    ensures WakesOn(After(run, n - 1), run[n - 1], After(run, n).table, id, master)
  {
    hide After, Next, Consistent, WakesOn;
    AfterNext(run, n - 1);
    WakeStep(After(run, n - 1), run[n - 1], id, master);
  }

  /** A slave is awake exactly if its master has fired since the wait began. */
  lemma {:induction false} AwakeMeansWoken(run: seq<Event>, n: nat, id: int, master: int)
    requires n < |run| && HasMaster(After(run, n), id, master)
    ensures IsAwake(After(run, n).table, id) <==> IsWoken(run, n, id, master)
  {
    hide After, IsLeftEnabled, IsWoken, FiredBy, IsAwake, Consistent;
    NothingAtStart(run, id);
    WakeAt(run, n, id, master);
    IsWokenStep(run, n, id, master);
    if HasMaster(After(run, n - 1), id, master) { AwakeMeansWoken(run, n - 1, id, master); }
  }

  // ----- The line -----

  lemma LineAt(run: seq<Event>, n: nat, file: FileId, line: nat)
    requires 0 < n <= |run|
    ensures KeepsOrder(LineOf(After(run, n - 1).table, file, line), LineOf(After(run, n).table, file, line))
  {
    hide After, Next, Consistent, KeepsOrder, LineOf;
    AfterNext(run, n - 1);
    LineStep(After(run, n - 1), run[n - 1], file, line);
  }

  lemma NobodyAtStart(run: seq<Event>, file: FileId, line: nat)
    ensures LineOf(After(run, 0).table, file, line) == []
  {
  }

  /** Who stands in front has come first. */
  lemma {:induction false} OrderMeansTime(run: seq<Event>, n: nat, a: int, b: int, file: FileId, line: nat)
    requires n <= |run| && a != b && Stands(run, n, a, file, line) && Stands(run, n, b, file, line)
    ensures Precedes(LineOf(After(run, n).table, file, line), a, b) <==> CameFirst(run, n, a, b, file, line)
  {
    hide After, LineOf, Precedes, CameFirst, NoDuplicates;
    NobodyAtStart(run, file, line);
    LineAt(run, n, file, line);
    CameFirstStep(run, n, a, b, file, line);
    if Stands(run, n - 1, a, file, line) && Stands(run, n - 1, b, file, line) {
      OrderMeansTime(run, n - 1, a, b, file, line);
    }
    var after := LineOf(After(run, n).table, file, line);
    NotBoth(after, a, b);
  }

  lemma NotBoth(ids: seq<int>, a: int, b: int)
    requires NoDuplicates(ids)
    ensures !(Precedes(ids, a, b) && Precedes(ids, b, a))
  {
  }

  lemma CameFirstStep(run: seq<Event>, n: nat, a: int, b: int, file: FileId, line: nat)
    requires 0 < n <= |run| && Stands(run, n, a, file, line) && Stands(run, n, b, file, line)
    ensures CameFirst(run, n, a, b, file, line) <==>
              Stands(run, n - 1, a, file, line) &&
              (!Stands(run, n - 1, b, file, line) || CameFirst(run, n - 1, a, b, file, line))
  {
    hide Stands;
    if CameFirst(run, n, a, b, file, line) {
      var i: nat :| i <= n && !Stands(run, i, b, file, line) &&
        forall j: nat | i <= j <= n :: Stands(run, j, a, file, line);
      assert Stands(run, n - 1, a, file, line);
    }
    if Stands(run, n - 1, a, file, line) && CameFirst(run, n - 1, a, b, file, line) {
      var i: nat :| i <= n - 1 && !Stands(run, i, b, file, line) &&
        forall j: nat | i <= j <= n - 1 :: Stands(run, j, a, file, line);
      assert forall j: nat | i <= j <= n :: Stands(run, j, a, file, line);
    }
    if Stands(run, n - 1, a, file, line) && !Stands(run, n - 1, b, file, line) {
      assert forall j: nat | n - 1 <= j <= n :: Stands(run, j, a, file, line);
    }
  }

  lemma FirstOfAll(ids: seq<int>, id: int)
    requires NoDuplicates(ids)
    ensures (ids != [] && ids[0] == id) <==> id in ids && forall k | k in ids && k != id :: Precedes(ids, id, k)
  {
    if ids != [] && ids[0] == id {
      forall k | k in ids && k != id ensures Precedes(ids, id, k) {
        var q :| 0 <= q < |ids| && ids[q] == k;
        assert ids[0] == id && ids[q] == k;
      }
    }
    if ids != [] {
      assert ids[0] in ids;
      assert !Precedes(ids, id, ids[0]);
    }
  }

  // ----- When a breakpoint fires -----

  /** Nothing asks for no breakpoint at this statement, and the condition is true. */
  predicate Reaches(e: Event, file: FileId, line: nat) {
    e.Reach? && e.position == Some(file) && e.line == line && !e.noBreakpoint && e.conditionHolds
  }

  /** Its last settings put it there, enabled. */
  ghost predicate IsSetThere(run: seq<Event>, n: nat, id: int, file: FileId, line: nat)
    requires n <= |run|
  {
    exists i: nat :: SetAt(run, i, n, id) && run[i].file == file && run[i].line == line && run[i].settings.enabled
  }

  ghost predicate IsFirstThere(run: seq<Event>, n: nat, id: int, file: FileId, line: nat)
    requires n <= |run|
  {
    forall k | k != id && Stands(run, n, k, file, line) :: CameFirst(run, n, id, k, file, line)
  }

  /** It has no master, or one that has fired since the wait began. */
  ghost predicate DoesNotWait(run: seq<Event>, n: nat, id: int)
    requires n < |run|
  {
    forall master | HasMaster(After(run, n), id, master) :: IsWoken(run, n, id, master)
  }

  lemma FiredIs(s: State, e: Event, id: int, file: FileId, line: nat)
    requires Consistent(s.table) && e.Reach? && e.position == Some(file) && e.line == line
    ensures FiredBy(s, e) == Some(id) <==>
              && Reaches(e, file, line) && !s.muted
              && LineOf(s.table, file, line) != [] && LineOf(s.table, file, line)[0] == id
              && id in s.table.breakpoints && s.table.breakpoints[id].settings.enabled
              && (s.table.breakpoints[id].master == None || s.table.breakpoints[id].masterWasHit)
  {
    hide Consistent;
  }

  /** A breakpoint fires at the n-th event if and only if this reaches the line where it stands, before
      all others, with its condition true; the last request to mute, if any, was to unmute; its last
      settings are enabled; and its master, if any, has fired since the wait began. */
  lemma FiresExactlyWhen(run: seq<Event>, n: nat, id: int, file: FileId, line: nat)
    requires n < |run| && run[n].Reach? && run[n].position == Some(file) && run[n].line == line
    ensures FiresAt(run, n, id) <==>
              && Reaches(run[n], file, line) && !MutedAt(run, n)
              && IsSetThere(run, n, id, file, line) && IsFirstThere(run, n, id, file, line)
              && DoesNotWait(run, n, id)
  {
    var s := After(run, n);
    FiredIs(s, run[n], id, file, line);
    MutedIsLast(run, n);
    SetThere(run, n, id, file, line);
    FirstThere(run, n, id, file, line);
    ReadyNow(run, n, id);
    hide After, LineOf, Reaches, MutedAt, IsSetThere, IsFirstThere, DoesNotWait, Fired;
  }

  lemma SetThere(run: seq<Event>, n: nat, id: int, file: FileId, line: nat)
    requires n <= |run|
    ensures IsSetThere(run, n, id, file, line) <==>
              && Stands(run, n, id, file, line) && id in After(run, n).table.breakpoints
              && After(run, n).table.breakpoints[id].settings.enabled
  {
    StandsWhere(After(run, n).table, file, line, id);
    hide After, LineOf, SetAt;
    if IsSetThere(run, n, id, file, line) {
      var i: nat :| SetAt(run, i, n, id) && run[i].file == file && run[i].line == line && run[i].settings.enabled;
      IsAsSet(run, i, n, id);
    }
    if id in After(run, n).table.breakpoints {
      var i := WasSet(run, n, id);
      IsAsSet(run, i, n, id);
    }
  }

  lemma FirstThere(run: seq<Event>, n: nat, id: int, file: FileId, line: nat)
    requires n <= |run|
    ensures
      var ids := LineOf(After(run, n).table, file, line);
      Stands(run, n, id, file, line) && IsFirstThere(run, n, id, file, line) <==> ids != [] && ids[0] == id
  {
    var ids := LineOf(After(run, n).table, file, line);
    LinesAreOnce(After(run, n).table, file, line);
    FirstOfAll(ids, id);
    hide After, LineOf, Precedes, CameFirst;
    if id in ids {
      forall k | k in ids && k != id ensures Precedes(ids, id, k) <==> CameFirst(run, n, id, k, file, line) {
        OrderMeansTime(run, n, id, k, file, line);
      }
    }
  }

  lemma ReadyNow(run: seq<Event>, n: nat, id: int)
    requires n < |run|
    ensures id in After(run, n).table.breakpoints ==>
      var b := After(run, n).table.breakpoints[id];
      DoesNotWait(run, n, id) <==> b.master == None || b.masterWasHit
  {
    if id in After(run, n).table.breakpoints {
      var b := After(run, n).table.breakpoints[id];
      if b.master.Some? { AwakeMeansWoken(run, n, id, b.master.value); }
      hide After, IsWoken;
    }
  }

  /** An enabled breakpoint without master, alone on its line, fires whenever its line is reached with
      its condition true and breakpoints are not muted. */
  lemma AloneItFires(run: seq<Event>, n: nat, id: int, file: FileId, line: nat)
    requires n < |run| && Reaches(run[n], file, line) && !MutedAt(run, n) && IsSetThere(run, n, id, file, line)
    requires forall k :: k != id ==> !Stands(run, n, k, file, line)
    requires forall master :: !HasMaster(After(run, n), id, master)
    ensures FiresAt(run, n, id)
  {
    FiresExactlyWhen(run, n, id, file, line);
    hide After, MutedAt, IsSetThere, Stands, FiresAt;
  }
}
