/** Whole runs of the debugger's breakpoints. */
module BreakpointRuns {
  import opened Wrappers
  import opened Breakpoints

  datatype Event =
    | OpenFile(newFile: FileId)
    | Modify(id: int, file: FileId, line: nat, settings: Settings)
    | Remove(id: int)
    | SetMaster(id: int, requested: Option<int>, leaveEnabled: bool)
    | Mute(mute: bool)
    | Reach(position: Option<FileId>, line: nat, noBreakpoint: bool, conditionHolds: bool)

  datatype State = State(table: Table, muted: bool)

  function FiredBy(s: State, e: Event): (id: Option<int>)
    ensures id.Some? ==> id.value in s.table.breakpoints && CanFire(s.table.breakpoints[id.value])
  {
    if e.Reach? then Fired(s.table, s.muted, e.position, e.line, e.noBreakpoint, e.conditionHolds) else None
  }

  /** An unknown master means none, an unknown breakpoint is left alone. */
  function MasterSet(t: Table, id: int, requested: Option<int>, leaveEnabled: bool): Table
    requires Consistent(t)
  {
    if id !in t.breakpoints then t else
    MasterIsKnown(t.breakpoints, id);
    var master := if requested.Some? && requested.value in t.breakpoints then requested else None;
    t.(breakpoints := WithMaster(t.breakpoints, id, master, leaveEnabled))
  }

  lemma MasterSetStaysConsistent(t: Table, id: int, requested: Option<int>, leaveEnabled: bool)
    requires Consistent(t)
    ensures Consistent(MasterSet(t, id, requested, leaveEnabled))
  {
    if id in t.breakpoints {
      MasterIsKnown(t.breakpoints, id);
      var master := if requested.Some? && requested.value in t.breakpoints then requested else None;
      MasterKeepsLinks(t.breakpoints, id, master, leaveEnabled);
      MasterKeepsPlaces(t.breakpoints, id, master, leaveEnabled);
      PlacesKeepIndex(t, WithMaster(t.breakpoints, id, master, leaveEnabled));
      hide Linked, Indexed, WithMaster;
    }
  }

  function Next(s: State, e: Event): State
    requires Consistent(s.table)
  {
    match e
    case OpenFile(file) =>
      if file in s.table.files then s else s.(table := s.table.(files := s.table.files[file := []]))
    case Modify(id, file, line, settings) =>
      ModifyStaysConsistent(s.table, id, file, line, settings);
      s.(table := AddOrModify(s.table, id, file, line, settings))
    case Remove(id) =>
      RemoveStaysConsistent(s.table, id);
      s.(table := Removed(s.table, id))
    case SetMaster(id, requested, leaveEnabled) => s.(table := MasterSet(s.table, id, requested, leaveEnabled))
    case Mute(mute) => s.(muted := mute)
    case Reach(_, _, _, _) =>
      var fired := FiredBy(s, e);
      if fired.Some? then s.(table := AfterHit(s.table, fired.value)) else s
  }

  lemma OpenStaysConsistent(t: Table, file: FileId)
    requires Consistent(t) && file !in t.files
    ensures Consistent(t.(files := t.files[file := []]))
  {
    hide Linked;
    var now := t.files[file := []];
    forall f, l: nat, k ensures Mentions(now, f, l, k) <==> Mentions(t.files, f, l, k) {}
  }

  /** Every event keeps the index exact and the links between masters and slaves inverse. */
  lemma NextStaysConsistent(s: State, e: Event)
    requires Consistent(s.table)
    ensures Consistent(Next(s, e).table)
  {
    hide Consistent, AddOrModify, Removed, MasterSet, AfterHit, Fired, CanFire, ModifyEffect, Mentions;
    match e {
      case OpenFile(file) => if file !in s.table.files { OpenStaysConsistent(s.table, file); }
      case Modify(id, file, line, settings) => ModifyStaysConsistent(s.table, id, file, line, settings);
      case Remove(id) => RemoveStaysConsistent(s.table, id);
      case SetMaster(id, requested, leaveEnabled) => MasterSetStaysConsistent(s.table, id, requested, leaveEnabled);
      case Mute(_) =>
      case Reach(_, _, _, _) =>
        var fired := FiredBy(s, e);
        if fired.Some? { HitStaysConsistent(s.table, fired.value); }
    }
  }

  const START := State(Table(map[], map[]), false)

  lemma StartIsConsistent()
    ensures Consistent(START.table)
  {
  }

  /** The state after the first n events. */
  function After(run: seq<Event>, n: nat): (s: State)
    requires n <= |run|
    ensures Consistent(s.table)
  {
    if n == 0 then
      StartIsConsistent();
      START
    else
    NextStaysConsistent(After(run, n - 1), run[n - 1]);
    Next(After(run, n - 1), run[n - 1])
  }

  lemma AfterNext(run: seq<Event>, n: nat)
    requires n < |run|
    ensures Consistent(After(run, n).table) && After(run, n + 1) == Next(After(run, n), run[n])
  {
  }

  // ----- Masters and slaves over time -----

  /** The breakpoint exists, and has this master. */
  predicate HasMaster(s: State, slave: int, master: int) {
    slave in s.table.breakpoints && s.table.breakpoints[slave].master == Some(master)
  }

  /** The breakpoint waits for its master, which has not been hit since. */
  predicate Waits(s: State, slave: int, master: int) {
    HasMaster(s, slave, master) && !s.table.breakpoints[slave].masterWasHit
  }

  lemma MasterKeepsWaiting(bs: map<int, Breakpoint>, id: int, master: Option<int>, leaveEnabled: bool, slave: int)
    requires id in bs && (bs[id].master.Some? ==> bs[id].master.value in bs) && (master.Some? ==> master.value in bs)
    requires slave in bs && !bs[slave].masterWasHit
    ensures !WithMaster(bs, id, master, leaveEnabled)[slave].masterWasHit
  {
  }

  lemma {:induction false} DetachKeepsWaiting(bs: map<int, Breakpoint>, slaves: seq<int>, slave: int)
    requires Linked(bs) && (forall s <- slaves :: s in bs) && slave in bs && !bs[slave].masterWasHit
    ensures !AllDetached(bs, slaves)[slave].masterWasHit
  {
    if slaves != [] {
      MasterIsKnown(bs, slaves[0]);
      MasterKeepsLinks(bs, slaves[0], None, false);
      MasterKeepsWaiting(bs, slaves[0], None, false, slave);
      hide Linked, WithMaster;
      DetachKeepsWaiting(WithMaster(bs, slaves[0], None, false), slaves[1..], slave);
    }
  }

  lemma RemoveKeepsWaiting(t: Table, id: int, slave: int)
    requires Consistent(t) && slave in t.breakpoints && !t.breakpoints[slave].masterWasHit && slave != id
    requires id in t.breakpoints ==>
      t.breakpoints[id].file in t.files && t.breakpoints[id].line < |t.files[t.breakpoints[id].file]|
    ensures slave in Removed(t, id).breakpoints && !Removed(t, id).breakpoints[slave].masterWasHit
  {
    if id in t.breakpoints {
      var bs := t.breakpoints;
      MasterIsKnown(bs, id);
      MasterKeepsLinks(bs, id, None, false);
      MasterKeepsWaiting(bs, id, None, false, slave);
      var alone := WithMaster(bs, id, None, false);
      SlavesAreKnown(alone, id);
      hide Linked, WithMaster, Indexed;
      DetachKeepsWaiting(alone, alone[id].slaves, slave);
    }
  }

  lemma HitKeepsWaiting(bs: map<int, Breakpoint>, id: int, slave: int)
    requires Linked(bs) && id in bs && slave in bs && !bs[slave].masterWasHit && bs[slave].master != Some(id)
    ensures !Hit(bs, id)[slave].masterWasHit
  {
    assert !IsSlaveOf(bs, slave, id);
  }

  /** Only its master's firing makes a waiting slave stop waiting. */
  lemma OnlyMasterWakes(s: State, e: Event, slave: int, master: int)
    requires Consistent(s.table) && Waits(s, slave, master) && HasMaster(Next(s, e), slave, master)
    ensures FiredBy(s, e) == Some(master) || Waits(Next(s, e), slave, master)
  {
    var t := s.table;
    match e {
      case OpenFile(_) =>
      case Modify(id, file, line, settings) =>
      case Remove(id) =>
        RemoveStaysConsistent(t, id);
        assert id != slave;
        RemoveKeepsWaiting(t, id, slave);
      case SetMaster(id, requested, leaveEnabled) =>
        if id in t.breakpoints {
          MasterIsKnown(t.breakpoints, id);
          var m := if requested.Some? && requested.value in t.breakpoints then requested else None;
          MasterKeepsWaiting(t.breakpoints, id, m, leaveEnabled, slave);
        }
      case Mute(_) =>
      case Reach(_, _, _, _) =>
        var fired := FiredBy(s, e);
        if fired.Some? && fired.value != master {
          HitWakesNoOther(t, fired.value, slave, master);
        }
    }
  }

  lemma HitWakesNoOther(t: Table, id: int, slave: int, master: int)
    requires Consistent(t) && id in t.breakpoints && CanFire(t.breakpoints[id]) && id != master
    requires slave in t.breakpoints && t.breakpoints[slave].master == Some(master) && !t.breakpoints[slave].masterWasHit
    ensures slave in AfterHit(t, id).breakpoints ==> !AfterHit(t, id).breakpoints[slave].masterWasHit
  {
    HitKeepsWaiting(t.breakpoints, id, slave);
    HitKeepsLinks(t.breakpoints, id);
    var now := t.(breakpoints := Hit(t.breakpoints, id));
    PlacesKeepIndex(t, now.breakpoints);
    RemoveStaysConsistent(now, id);
    if slave != id { RemoveKeepsWaiting(now, id, slave); }
    hide Linked, Indexed, Hit, Removed;
  }

  /** A breakpoint with a master cannot fire while it waits. */
  lemma WaitingDoesNotFire(s: State, e: Event, slave: int, master: int)
    requires Waits(s, slave, master)
    ensures FiredBy(s, e) != Some(slave)
  {
  }

  /** From event i up to event j the breakpoint has this master. */
  predicate KeepsMaster(run: seq<Event>, i: nat, j: nat, slave: int, master: int)
    requires j < |run|
  {
    forall n: nat :: i <= n <= j ==> HasMaster(After(run, n), slave, master)
  }

  predicate FiresAt(run: seq<Event>, n: nat, id: int)
    requires n < |run|
  {
    FiredBy(After(run, n), run[n]) == Some(id)
  }

  predicate WaitsAt(run: seq<Event>, n: nat, slave: int, master: int)
    requires n <= |run|
  {
    Waits(After(run, n), slave, master)
  }

  lemma OneStepOfWaiting(run: seq<Event>, i: nat, j: nat, slave: int, master: int)
    requires i <= j < |run| && WaitsAt(run, i, slave, master) && KeepsMaster(run, i, j, slave, master)
    ensures !FiresAt(run, i, slave)
    ensures i < j ==> FiresAt(run, i, master) || WaitsAt(run, i + 1, slave, master)
    ensures KeepsMaster(run, i + 1, j, slave, master)
  {
    AfterNext(run, i);
    hide After;
    WaitingDoesNotFire(After(run, i), run[i], slave, master);
    if i < j {
      assert HasMaster(After(run, i + 1), slave, master);
      OnlyMasterWakes(After(run, i), run[i], slave, master);
    }
  }

  /** When a slave that waits at time i fires at time j, with the same master all along, that
      master has fired in between. */
  lemma {:induction false} NoFireBeforeMaster(run: seq<Event>, i: nat, j: nat, slave: int, master: int) returns (k: nat)
    requires i <= j < |run| && WaitsAt(run, i, slave, master) && KeepsMaster(run, i, j, slave, master) &&
        FiresAt(run, j, slave)
    ensures i <= k < j && FiresAt(run, k, master)
    decreases j - i
  {
    hide *;
    OneStepOfWaiting(run, i, j, slave, master);
    if FiresAt(run, i, master) && i < j {
      k := i;
    } else {
      k := NoFireBeforeMaster(run, i + 1, j, slave, master);
    }
  }

  /** Firing makes a slave that is not left enabled wait again. */
  lemma FiringStartsWait(s: State, e: Event, slave: int, master: int)
    requires Consistent(s.table) && HasMaster(s, slave, master) && FiredBy(s, e) == Some(slave)
    requires !s.table.breakpoints[slave].slaveLeaveEnabled && HasMaster(Next(s, e), slave, master)
    ensures Waits(Next(s, e), slave, master)
  {
    hide Linked, Indexed, AfterHit, Hit, Fired, Removed, MasterSet, AddOrModify, ModifyEffect;
    var t := s.table;
    NotItsOwnMaster(t.breakpoints, slave);
    HitEffect(t.breakpoints, slave);
    HitOneStays(t, slave);
  }

  lemma NotItsOwnMaster(bs: map<int, Breakpoint>, id: int)
    requires Linked(bs) && id in bs && CanFire(bs[id])
    ensures bs[id].master != Some(id)
  {
  }

  /** Getting another master starts a wait. */
  lemma SettingStartsWait(s: State, e: Event, slave: int, master: int)
    requires Consistent(s.table) && e.SetMaster? && e.id == slave
    requires !HasMaster(s, slave, master) && HasMaster(Next(s, e), slave, master)
    ensures Waits(Next(s, e), slave, master)
  {
    hide Linked, Indexed, WithMaster, Removed, AddOrModify, AfterHit, ModifyEffect;
    if slave in s.table.breakpoints {
      MasterIsKnown(s.table.breakpoints, slave);
      var known := e.requested.Some? && e.requested.value in s.table.breakpoints;
      MasterEffect(s.table.breakpoints, slave, if known then e.requested else None, e.leaveEnabled);
    }
  }

  /** Between two firings of a slave that is not left enabled its master fires, however long the run. */
  lemma FiresOncePerMaster(run: seq<Event>, i: nat, j: nat, slave: int, master: int) returns (k: nat)
    requires i < j < |run| && FiresAt(run, i, slave) && FiresAt(run, j, slave) && KeepsMaster(run, i, j, slave, master)
    requires !After(run, i).table.breakpoints[slave].slaveLeaveEnabled
    ensures i < k < j && FiresAt(run, k, master)
  {
    hide *;
    FiringStartsWaitAt(run, i, j, slave, master);
    k := NoFireBeforeMaster(run, i + 1, j, slave, master);
  }

  lemma FiringStartsWaitAt(run: seq<Event>, i: nat, j: nat, slave: int, master: int)
    requires i < j < |run| && FiresAt(run, i, slave) && KeepsMaster(run, i, j, slave, master)
    requires !After(run, i).table.breakpoints[slave].slaveLeaveEnabled
    ensures WaitsAt(run, i + 1, slave, master) && KeepsMaster(run, i + 1, j, slave, master)
  {
    AfterNext(run, i);
    hide After, Next, Consistent, FiredBy, Waits, HasMaster;
    assert HasMaster(After(run, i), slave, master) && HasMaster(After(run, i + 1), slave, master);
    FiringStartsWait(After(run, i), run[i], slave, master);
  }

  /** After a breakpoint has got a master it does not fire before that master does. */
  lemma FiresAfterMaster(run: seq<Event>, i: nat, j: nat, slave: int, master: int) returns (k: nat)
    requires i < j < |run| && run[i].SetMaster? && run[i].id == slave && !HasMaster(After(run, i), slave, master)
    requires KeepsMaster(run, i + 1, j, slave, master) && FiresAt(run, j, slave)
    ensures i < k < j && FiresAt(run, k, master)
  {
    hide *;
    SettingStartsWaitAt(run, i, j, slave, master);
    k := NoFireBeforeMaster(run, i + 1, j, slave, master);
  }

  lemma SettingStartsWaitAt(run: seq<Event>, i: nat, j: nat, slave: int, master: int)
    requires i < j < |run| && run[i].SetMaster? && run[i].id == slave && !HasMaster(After(run, i), slave, master)
    requires KeepsMaster(run, i + 1, j, slave, master)
    ensures WaitsAt(run, i + 1, slave, master)
  {
    AfterNext(run, i);
    hide After, Next, Consistent, FiredBy, Waits, HasMaster;
    assert HasMaster(After(run, i + 1), slave, master);
    SettingStartsWait(After(run, i), run[i], slave, master);
  }

  /** A breakpoint that was made its own master never fires. */
  lemma OwnMasterNeverFires(run: seq<Event>, n: nat, id: int)
    requires n < |run| && HasMaster(After(run, n), id, id)
    ensures !FiresAt(run, n, id)
  {
    assert Consistent(After(run, n).table);
  }
}
