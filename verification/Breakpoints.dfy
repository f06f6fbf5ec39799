/** Breakpoints: the index by file and line, and the masters that some of them wait for. */
module Breakpoints {
  import opened Wrappers
  type FileId = string

  datatype Settings = Settings(enabled: bool, suspend: bool, condition: string, evaluateAndLog: string,
                               hitMessage: bool, printStack: bool, removeAfterHit: bool)

  datatype Breakpoint = Breakpoint(settings: Settings, file: FileId, line: nat, master: Option<int>,
                                   slaveLeaveEnabled: bool, slaves: seq<int>, masterWasHit: bool)

  /** All breakpoints by id, and for every known file the ids on each of its lines. */
  datatype Table = Table(breakpoints: map<int, Breakpoint>, files: map<FileId, seq<seq<int>>>)

  // ----- Lists -----

  function WithoutFirst(s: seq<int>, x: int): seq<int> {
    if s == [] then [] else if s[0] == x then s[1..] else [s[0]] + WithoutFirst(s[1..], x)
  }

  lemma {:induction false} WithoutFirstRemoves(s: seq<int>, x: int)
    requires NoDuplicates(s)
    ensures NoDuplicates(WithoutFirst(s, x))
    ensures forall y :: y in WithoutFirst(s, x) <==> y in s && y != x
  {
    if s != [] {
      WithoutFirstRemoves(s[1..], x);
      assert s == [s[0]] + s[1..];
      if s[0] == x {
        assert x !in s[1..];
      } else {
        var rest := WithoutFirst(s[1..], x);
        assert s[0] !in s[1..] && s[0] !in rest;
      }
    }
  }

  // ----- Invariants -----

  predicate Mentions(files: map<FileId, seq<seq<int>>>, file: FileId, line: nat, id: int) {
    file in files && line < |files[file]| && id in files[file][line]
  }

  /** Every breakpoint stands once on its own line, and nothing else stands anywhere. */
  ghost predicate Indexed(t: Table) {
    && (forall id :: id in t.breakpoints ==> Mentions(t.files, t.breakpoints[id].file, t.breakpoints[id].line, id))
    && (forall file, line: nat, id :: Mentions(t.files, file, line, id) ==>
          id in t.breakpoints && t.breakpoints[id].file == file && t.breakpoints[id].line == line)
    && (forall file, line: nat :: file in t.files && line < |t.files[file]| ==> NoDuplicates(t.files[file][line]))
  }

  predicate IsSlaveOf(bs: map<int, Breakpoint>, id: int, master: int) {
    master in bs && id in bs[master].slaves
  }

  /** The slaves of a breakpoint are exactly those that have it as their master; one that is its own
      master has not been hit by it. */
  ghost predicate Linked(bs: map<int, Breakpoint>) {
    && (forall m, id :: IsSlaveOf(bs, id, m) <==> id in bs && m in bs && bs[id].master == Some(m))
    && (forall id :: id in bs && bs[id].master.Some? ==> bs[id].master.value in bs)
    && (forall id :: id in bs ==> NoDuplicates(bs[id].slaves))
    && (forall id :: id in bs && bs[id].master == Some(id) ==> !bs[id].masterWasHit)
  }

  ghost predicate Consistent(t: Table) { Indexed(t) && Linked(t.breakpoints) }

  // ----- Masters -----

  function Detached(bs: map<int, Breakpoint>, id: int): map<int, Breakpoint>
    requires id in bs && (bs[id].master.Some? ==> bs[id].master.value in bs)
  {
    match bs[id].master
    case None => bs
    case Some(m) =>
      var fewer := bs[m := bs[m].(slaves := WithoutFirst(bs[m].slaves, id))];
      fewer[id := fewer[id].(master := None)]
  }

  function Attached(bs: map<int, Breakpoint>, id: int, m: int): map<int, Breakpoint>
    requires id in bs && m in bs
  {
    var owned := bs[id := bs[id].(master := Some(m))];
    owned[m := owned[m].(slaves := owned[m].slaves + [id])]
  }

  function WithMaster(bs: map<int, Breakpoint>, id: int, master: Option<int>, leaveEnabled: bool): map<int, Breakpoint>
    requires id in bs && (bs[id].master.Some? ==> bs[id].master.value in bs) && (master.Some? ==> master.value in bs)
  {
    if bs[id].master == master then bs[id := bs[id].(slaveLeaveEnabled := leaveEnabled)] else
    var cleared := bs[id := bs[id].(slaveLeaveEnabled := leaveEnabled, masterWasHit := false)];
    var detached := Detached(cleared, id);
    if master.Some? then Attached(detached, id, master.value) else detached
  }

  lemma FlagsKeepLinks(bs: map<int, Breakpoint>, id: int, leaveEnabled: bool, hit: bool)
    requires Linked(bs) && id in bs && (hit ==> bs[id].masterWasHit)
    ensures Linked(bs[id := bs[id].(slaveLeaveEnabled := leaveEnabled, masterWasHit := hit)])
  {
    var now := bs[id := bs[id].(slaveLeaveEnabled := leaveEnabled, masterWasHit := hit)];
    forall m, k ensures IsSlaveOf(now, k, m) <==> IsSlaveOf(bs, k, m) {}
  }

  lemma DetachKeepsLinks(bs: map<int, Breakpoint>, id: int)
    requires Linked(bs) && id in bs
    ensures Linked(Detached(bs, id)) && Detached(bs, id).Keys == bs.Keys
    ensures Detached(bs, id)[id].master == None && Detached(bs, id)[id].masterWasHit == bs[id].masterWasHit
  {
    if bs[id].master.Some? {
      var m := bs[id].master.value;
      WithoutFirstRemoves(bs[m].slaves, id);
      var now := Detached(bs, id);
      forall k, l ensures IsSlaveOf(now, l, k) <==> IsSlaveOf(bs, l, k) && l != id {
        assert IsSlaveOf(bs, id, k) ==> k == m;
      }
    }
  }

  lemma AttachKeepsLinks(bs: map<int, Breakpoint>, id: int, m: int)
    requires Linked(bs) && id in bs && m in bs && bs[id].master == None && !bs[id].masterWasHit
    ensures Linked(Attached(bs, id, m)) && Attached(bs, id, m).Keys == bs.Keys
  {
    var now := Attached(bs, id, m);
    assert !IsSlaveOf(bs, id, m);
    assert now[m].slaves == bs[m].slaves + [id];
    forall k, l ensures IsSlaveOf(now, l, k) <==> IsSlaveOf(bs, l, k) || (l == id && k == m) {}
  }

  /** Giving a breakpoint another master keeps the links right. */
  lemma MasterKeepsLinks(bs: map<int, Breakpoint>, id: int, master: Option<int>, leaveEnabled: bool)
    requires Linked(bs) && id in bs && (master.Some? ==> master.value in bs)
    ensures
      var now := WithMaster(bs, id, master, leaveEnabled);
      Linked(now) && now.Keys == bs.Keys && now[id].master == master
  {
    hide Linked;
    if bs[id].master == master {
      FlagsKeepLinks(bs, id, leaveEnabled, bs[id].masterWasHit);
    } else {
      FlagsKeepLinks(bs, id, leaveEnabled, false);
      var cleared := bs[id := bs[id].(slaveLeaveEnabled := leaveEnabled, masterWasHit := false)];
      MasterIsKnown(bs, id);
      DetachKeepsLinks(cleared, id);
      if master.Some? {
        AttachKeepsLinks(Detached(cleared, id), id, master.value);
      }
    }
  }

  lemma MasterIsKnown(bs: map<int, Breakpoint>, id: int)
    requires Linked(bs) && id in bs
    ensures bs[id].master.Some? ==> bs[id].master.value in bs
  {
  }

  /** The breakpoints differ in their slaves only. */
  predicate SameButSlaves(b: Breakpoint, c: Breakpoint) { b.(slaves := c.slaves) == c }

  /** A new master is the breakpoint's own affair: apart from lists of slaves no other one changes. It
      keeps its settings and place, and it waits again if the master is really another one. */
  lemma MasterEffect(bs: map<int, Breakpoint>, id: int, master: Option<int>, leaveEnabled: bool)
    requires id in bs && (bs[id].master.Some? ==> bs[id].master.value in bs) && (master.Some? ==> master.value in bs)
    ensures
      var now := WithMaster(bs, id, master, leaveEnabled);
      var wasHit := if bs[id].master == master then bs[id].masterWasHit else false;
      && now.Keys == bs.Keys
      && SameButSlaves(bs[id].(master := master, slaveLeaveEnabled := leaveEnabled, masterWasHit := wasHit), now[id])
      && (forall k :: k in bs && k != id ==> SameButSlaves(bs[k], now[k]))
  {
  }

  /** The breakpoint stands where it stood. */
  predicate SamePlaces(bs: map<int, Breakpoint>, other: map<int, Breakpoint>) {
    bs.Keys == other.Keys && forall id :: id in bs ==> bs[id].file == other[id].file && bs[id].line == other[id].line
  }

  lemma MasterKeepsPlaces(bs: map<int, Breakpoint>, id: int, master: Option<int>, leaveEnabled: bool)
    requires id in bs && (bs[id].master.Some? ==> bs[id].master.value in bs) && (master.Some? ==> master.value in bs)
    ensures SamePlaces(bs, WithMaster(bs, id, master, leaveEnabled))
  {
    MasterEffect(bs, id, master, leaveEnabled);
    hide WithMaster;
  }

  lemma PlacesKeepIndex(t: Table, bs: map<int, Breakpoint>)
    requires Indexed(t) && SamePlaces(t.breakpoints, bs)
    ensures Indexed(t.(breakpoints := bs))
  {
    hide Mentions;
  }

  // ----- Places -----

  function Resized(lines: seq<seq<int>>, n: nat): seq<seq<int>> {
    if |lines| < n then lines + seq(n - |lines|, _ => []) else lines
  }

  function Placed(files: map<FileId, seq<seq<int>>>, file: FileId, line: nat, id: int): map<FileId, seq<seq<int>>>
    requires file in files
  {
    var lines := Resized(files[file], line + 1);
    files[file := lines[line := lines[line] + [id]]]
  }

  function Unplaced(files: map<FileId, seq<seq<int>>>, file: FileId, line: nat, id: int): map<FileId, seq<seq<int>>>
    requires file in files && line < |files[file]|
  {
    files[file := files[file][line := WithoutFirst(files[file][line], id)]]
  }

  lemma UnplacedMentions(files: map<FileId, seq<seq<int>>>, file: FileId, line: nat, id: int)
    requires file in files && line < |files[file]| && NoDuplicates(files[file][line])
    ensures
      var now := Unplaced(files, file, line, id);
      && now.Keys == files.Keys && NoDuplicates(now[file][line]) && |now[file]| == |files[file]|
      && (forall f, l: nat, k :: Mentions(now, f, l, k) <==>
            Mentions(files, f, l, k) && !(f == file && l == line && k == id))
  {
    WithoutFirstRemoves(files[file][line], id);
  }

  lemma PlacedMentions(files: map<FileId, seq<seq<int>>>, file: FileId, line: nat, id: int)
    requires file in files
    ensures
      var now := Placed(files, file, line, id);
      && now.Keys == files.Keys && |now[file]| > line && |now[file]| >= |files[file]|
      && (forall f, l: nat, k :: Mentions(now, f, l, k) <==>
            Mentions(files, f, l, k) || (f == file && l == line && k == id))
  {
  }

  // ----- Adding and changing -----

  function AddOrModify(t: Table, id: int, file: FileId, line: nat, settings: Settings): Table
    requires id in t.breakpoints ==>
      t.breakpoints[id].file in t.files && t.breakpoints[id].line < |t.files[t.breakpoints[id].file]|
  {
    if file !in t.files then t
    else if id !in t.breakpoints then
      Table(t.breakpoints[id := Breakpoint(settings, file, line, None, false, [], false)],
            Placed(t.files, file, line, id))
    else
      var b := t.breakpoints[id];
      if b.file == file && b.line == line then t.(breakpoints := t.breakpoints[id := b.(settings := settings)])
      else Table(t.breakpoints[id := b.(settings := settings, file := file, line := line)],
                 Placed(Unplaced(t.files, b.file, b.line, id), file, line, id))
  }

  lemma RecordKeepsLinks(bs: map<int, Breakpoint>, id: int, settings: Settings, file: FileId, line: nat)
    requires Linked(bs)
    ensures id in bs ==> Linked(bs[id := bs[id].(settings := settings, file := file, line := line)])
    ensures id !in bs ==> Linked(bs[id := Breakpoint(settings, file, line, None, false, [], false)])
  {
    if id in bs {
      var now := bs[id := bs[id].(settings := settings, file := file, line := line)];
      forall m, k ensures IsSlaveOf(now, k, m) <==> IsSlaveOf(bs, k, m) {}
    } else {
      var now := bs[id := Breakpoint(settings, file, line, None, false, [], false)];
      forall m, k ensures IsSlaveOf(now, k, m) <==> IsSlaveOf(bs, k, m) {}
    }
  }

  /** No line lists an id twice. */
  ghost predicate LinesAreDistinct(files: map<FileId, seq<seq<int>>>) {
    forall file, line: nat :: file in files && line < |files[file]| ==> NoDuplicates(files[file][line])
  }

  lemma UnplacedStaysDistinct(files: map<FileId, seq<seq<int>>>, file: FileId, line: nat, id: int)
    requires file in files && line < |files[file]| && LinesAreDistinct(files)
    ensures LinesAreDistinct(Unplaced(files, file, line, id))
  {
    var now := Unplaced(files, file, line, id);
    WithoutFirstRemoves(files[file][line], id);
    forall f, l: nat | f in now && l < |now[f]| ensures NoDuplicates(now[f][l]) {
      if f != file || l != line { assert now[f][l] == files[f][l]; }
    }
  }

  lemma PlacedStaysDistinct(files: map<FileId, seq<seq<int>>>, file: FileId, line: nat, id: int)
    requires file in files && LinesAreDistinct(files) && !Mentions(files, file, line, id)
    ensures LinesAreDistinct(Placed(files, file, line, id))
  {
    var now := Placed(files, file, line, id);
    forall f, l: nat | f in now && l < |now[f]| ensures NoDuplicates(now[f][l]) {
      PlacedLine(files, file, line, id, f, l);
      if f in files && l < |files[f]| { assert NoDuplicates(files[f][l]); }
    }
  }

  /** The files mention exactly the breakpoints other than id, where they stand. */
  ghost predicate MentionsOthers(bs: map<int, Breakpoint>, files: map<FileId, seq<seq<int>>>, id: int) {
    && (forall k :: k in bs && k != id ==> Mentions(files, bs[k].file, bs[k].line, k))
    && (forall f, l: nat, k :: Mentions(files, f, l, k) ==> k != id && k in bs && bs[k].file == f && bs[k].line == l)
  }

  lemma TakenOut(t: Table, id: int)
    requires Indexed(t) && id in t.breakpoints
    ensures t.breakpoints[id].file in t.files && t.breakpoints[id].line < |t.files[t.breakpoints[id].file]|
    ensures
      var files := Unplaced(t.files, t.breakpoints[id].file, t.breakpoints[id].line, id);
      MentionsOthers(t.breakpoints, files, id) && LinesAreDistinct(files) && files.Keys == t.files.Keys
  {
    var b := t.breakpoints[id];
    assert Mentions(t.files, b.file, b.line, id);
    UnplacedMentions(t.files, b.file, b.line, id);
    UnplacedStaysDistinct(t.files, b.file, b.line, id);
    hide Unplaced, Mentions, NoDuplicates;
  }

  lemma NotIn(t: Table, id: int)
    requires Indexed(t) && id !in t.breakpoints
    ensures MentionsOthers(t.breakpoints, t.files, id) && LinesAreDistinct(t.files)
  {
    hide Mentions, NoDuplicates;
  }

  lemma PutBack(bs: map<int, Breakpoint>, files: map<FileId, seq<seq<int>>>, id: int, b: Breakpoint)
    requires MentionsOthers(bs, files, id) && LinesAreDistinct(files) && b.file in files
    ensures Indexed(Table(bs[id := b], Placed(files, b.file, b.line, id)))
  {
    assert !Mentions(files, b.file, b.line, id);
    PlacedMentions(files, b.file, b.line, id);
    PlacedStaysDistinct(files, b.file, b.line, id);
    hide Placed, Mentions, NoDuplicates;
  }

  lemma MoveKeepsIndex(t: Table, id: int, b: Breakpoint, files: map<FileId, seq<seq<int>>>)
    requires Indexed(t) && b.file in files
    requires
      if id in t.breakpoints then
        var old_ := t.breakpoints[id];
        old_.file in t.files && old_.line < |t.files[old_.file]| && files == Unplaced(t.files, old_.file, old_.line, id)
      else files == t.files
    ensures Indexed(Table(t.breakpoints[id := b], Placed(files, b.file, b.line, id)))
  {
    hide Indexed, Placed, Unplaced, MentionsOthers, LinesAreDistinct;
    if id in t.breakpoints { TakenOut(t, id); } else { NotIn(t, id); }
    PutBack(t.breakpoints, files, id, b);
  }

  lemma PlacedLine(files: map<FileId, seq<seq<int>>>, file: FileId, line: nat, id: int, f: FileId, l: nat)
    requires file in files && f in Placed(files, file, line, id) && l < |Placed(files, file, line, id)[f]|
    ensures
      var before := if f in files && l < |files[f]| then files[f][l] else [];
      Placed(files, file, line, id)[f][l] == if f == file && l == line then before + [id] else before
  {
  }

  /** The named breakpoint has the requested settings and place, and everything else is as before; a
      request for an unknown file changes nothing. */
  predicate ModifyEffect(t: Table, now: Table, id: int, file: FileId, line: nat, settings: Settings) {
    if file !in t.files then now == t else
    && now.breakpoints.Keys == t.breakpoints.Keys + {id} && now.files.Keys == t.files.Keys
    && now.breakpoints[id] == (if id in t.breakpoints
                               then t.breakpoints[id].(settings := settings, file := file, line := line)
                               else Breakpoint(settings, file, line, None, false, [], false))
    && (forall k :: k in t.breakpoints && k != id ==> now.breakpoints[k] == t.breakpoints[k])
  }

  lemma ModifyStaysConsistent(t: Table, id: int, file: FileId, line: nat, settings: Settings)
    requires Consistent(t)
    ensures id in t.breakpoints ==> Mentions(t.files, t.breakpoints[id].file, t.breakpoints[id].line, id)
    ensures Consistent(AddOrModify(t, id, file, line, settings))
    ensures ModifyEffect(t, AddOrModify(t, id, file, line, settings), id, file, line, settings)
  {
    assert id in t.breakpoints ==> Mentions(t.files, t.breakpoints[id].file, t.breakpoints[id].line, id);
    ModifyHasEffect(t, id, file, line, settings);
    ModifyKeepsIndex(t, id, file, line, settings);
    ModifyKeepsLinks(t, id, file, line, settings);
    hide Linked, Indexed, AddOrModify, ModifyEffect;
  }

  lemma ModifyHasEffect(t: Table, id: int, file: FileId, line: nat, settings: Settings)
    requires id in t.breakpoints ==> Mentions(t.files, t.breakpoints[id].file, t.breakpoints[id].line, id)
    ensures ModifyEffect(t, AddOrModify(t, id, file, line, settings), id, file, line, settings)
  {
    hide Placed, Unplaced;
    if file in t.files && id in t.breakpoints {
      KeysStay(t.files, t.breakpoints[id].file, t.breakpoints[id].line, id, file, line);
    } else if file in t.files {
      PlacedKeys(t.files, file, line, id);
    }
  }

  lemma PlacedKeys(files: map<FileId, seq<seq<int>>>, file: FileId, line: nat, id: int)
    requires file in files
    ensures Placed(files, file, line, id).Keys == files.Keys
  {
  }

  lemma KeysStay(files: map<FileId, seq<seq<int>>>, from: FileId, fromLine: nat, id: int, file: FileId, line: nat)
    requires from in files && fromLine < |files[from]| && file in files
    ensures Unplaced(files, from, fromLine, id).Keys == files.Keys
    ensures Placed(Unplaced(files, from, fromLine, id), file, line, id).Keys == files.Keys
  {
    assert Unplaced(files, from, fromLine, id).Keys == files.Keys;
    PlacedKeys(Unplaced(files, from, fromLine, id), file, line, id);
    hide Placed, Unplaced;
  }

  lemma ModifyKeepsLinks(t: Table, id: int, file: FileId, line: nat, settings: Settings)
    requires Linked(t.breakpoints)
    requires id in t.breakpoints ==> Mentions(t.files, t.breakpoints[id].file, t.breakpoints[id].line, id)
    ensures Linked(AddOrModify(t, id, file, line, settings).breakpoints)
  {
    RecordKeepsLinks(t.breakpoints, id, settings, file, line);
    hide Linked, Placed, Unplaced;
    if id in t.breakpoints {
      var b := t.breakpoints[id];
      assert b.file == file && b.line == line ==>
        b.(settings := settings, file := file, line := line) == b.(settings := settings);
    }
  }

  lemma ModifyKeepsIndex(t: Table, id: int, file: FileId, line: nat, settings: Settings)
    requires Indexed(t)
    requires id in t.breakpoints ==> Mentions(t.files, t.breakpoints[id].file, t.breakpoints[id].line, id)
    ensures Indexed(AddOrModify(t, id, file, line, settings))
  {
    hide Indexed, Placed, Unplaced;
    if file in t.files {
      if id !in t.breakpoints {
        MoveKeepsIndex(t, id, Breakpoint(settings, file, line, None, false, [], false), t.files);
      } else {
        var b := t.breakpoints[id];
        if b.file != file || b.line != line {
          KeysStay(t.files, b.file, b.line, id, file, line);
          MoveKeepsIndex(t, id, b.(settings := settings, file := file, line := line),
                         Unplaced(t.files, b.file, b.line, id));
        } else {
          PlacesKeepIndex(t, t.breakpoints[id := b.(settings := settings)]);
        }
      }
    }
  }

  // ----- Removing -----

  /** The breakpoints after all of `slaves` have lost their masters, one after the other. */
  function AllDetached(bs: map<int, Breakpoint>, slaves: seq<int>): (now: map<int, Breakpoint>)
    requires Linked(bs) && forall s <- slaves :: s in bs
    ensures Linked(now) && now.Keys == bs.Keys
  {
    if slaves == [] then bs else
    MasterIsKnown(bs, slaves[0]);
    MasterKeepsLinks(bs, slaves[0], None, false);
    AllDetached(WithMaster(bs, slaves[0], None, false), slaves[1..])
  }

  lemma {:induction false} AllDetachedMasters(bs: map<int, Breakpoint>, slaves: seq<int>)
    requires Linked(bs) && forall s <- slaves :: s in bs
    ensures SamePlaces(bs, AllDetached(bs, slaves))
    ensures forall k :: k in bs ==> AllDetached(bs, slaves)[k].master == if k in slaves then None else bs[k].master
  {
    if slaves != [] {
      var s := slaves[0];
      MasterIsKnown(bs, s);
      MasterKeepsLinks(bs, s, None, false);
      MasterKeepsPlaces(bs, s, None, false);
      OthersKeepMasters(bs, s, None, false);
      var next := WithMaster(bs, s, None, false);
      hide Linked, WithMaster;
      AllDetachedMasters(next, slaves[1..]);
      assert slaves == [s] + slaves[1..];
    }
  }

  lemma OthersKeepMasters(bs: map<int, Breakpoint>, id: int, master: Option<int>, leaveEnabled: bool)
    requires id in bs && (bs[id].master.Some? ==> bs[id].master.value in bs) && (master.Some? ==> master.value in bs)
    ensures
      var now := WithMaster(bs, id, master, leaveEnabled);
      forall k :: k in bs && k != id ==> k in now && now[k].master == bs[k].master
  {
  }

  function Freed(b: Breakpoint): Breakpoint { b.(master := None, slaveLeaveEnabled := false, masterWasHit := false) }

  lemma {:induction false} AllDetachedEffect(bs: map<int, Breakpoint>, slaves: seq<int>)
    requires Linked(bs) && NoDuplicates(slaves) && forall s <- slaves :: s in bs && bs[s].master.Some?
    ensures forall k :: k in bs ==>
      SameButSlaves(if k in slaves then Freed(bs[k]) else bs[k], AllDetached(bs, slaves)[k])
  {
    if slaves != [] {
      var s := slaves[0];
      MasterIsKnown(bs, s);
      MasterKeepsLinks(bs, s, None, false);
      MasterEffect(bs, s, None, false);
      var next := WithMaster(bs, s, None, false);
      assert slaves == [s] + slaves[1..];
      assert s !in slaves[1..];
      hide Linked, WithMaster;
      AllDetachedEffect(next, slaves[1..]);
    }
  }

  /** Without its master and its slaves. */
  function Isolated(bs: map<int, Breakpoint>, id: int): (now: map<int, Breakpoint>)
    requires Linked(bs) && id in bs
    ensures Linked(now) && now.Keys == bs.Keys
  {
    MasterIsKnown(bs, id);
    MasterKeepsLinks(bs, id, None, false);
    var alone := WithMaster(bs, id, None, false);
    SlavesAreKnown(alone, id);
    AllDetached(alone, alone[id].slaves)
  }

  lemma SlavesAreKnown(bs: map<int, Breakpoint>, id: int)
    requires Linked(bs) && id in bs
    ensures forall s <- bs[id].slaves :: s in bs && bs[s].master == Some(id)
  {
    forall s | s in bs[id].slaves ensures s in bs && bs[s].master == Some(id) { assert IsSlaveOf(bs, s, id); }
  }

  ghost predicate HasNoSlaves(bs: map<int, Breakpoint>, id: int) { forall k :: !IsSlaveOf(bs, k, id) }

  lemma IsolatedIsAlone(bs: map<int, Breakpoint>, id: int)
    requires Linked(bs) && id in bs
    ensures SamePlaces(bs, Isolated(bs, id))
    ensures Isolated(bs, id)[id].master == None && HasNoSlaves(Isolated(bs, id), id)
    ensures forall k :: k in bs && k != id ==>
      Isolated(bs, id)[k].master == if bs[k].master == Some(id) then None else bs[k].master
  {
    MasterIsKnown(bs, id);
    MasterKeepsLinks(bs, id, None, false);
    MasterKeepsPlaces(bs, id, None, false);
    OthersKeepMasters(bs, id, None, false);
    var alone := WithMaster(bs, id, None, false);
    hide WithMaster;
    SlavesAreKnown(alone, id);
    AllDetachedMasters(alone, alone[id].slaves);
    var now := Isolated(bs, id);
    forall k | k in bs ensures k in alone[id].slaves <==> alone[k].master == Some(id) {
      assert IsSlaveOf(alone, k, id) <==> alone[k].master == Some(id);
    }
  }

  function Removed(t: Table, id: int): Table
    requires Linked(t.breakpoints)
    requires id in t.breakpoints ==>
      t.breakpoints[id].file in t.files && t.breakpoints[id].line < |t.files[t.breakpoints[id].file]|
  {
    if id !in t.breakpoints then t
    else Table(Isolated(t.breakpoints, id) - {id},
               Unplaced(t.files, t.breakpoints[id].file, t.breakpoints[id].line, id))
  }

  lemma EraseKeepsLinks(bs: map<int, Breakpoint>, id: int)
    requires Linked(bs) && id in bs && bs[id].master == None && HasNoSlaves(bs, id)
    ensures Linked(bs - {id})
  {
    var now := bs - {id};
    forall m, k ensures IsSlaveOf(now, k, m) <==> IsSlaveOf(bs, k, m) {
      assert !IsSlaveOf(bs, k, id) && !IsSlaveOf(bs, id, m);
    }
    forall k | k in now && now[k].master.Some? ensures now[k].master.value in now {
      assert !IsSlaveOf(bs, k, id);
    }
  }

  /** Removing a breakpoint takes it out of the index, and frees exactly its slaves. */
  lemma RemoveStaysConsistent(t: Table, id: int)
    requires Consistent(t)
    ensures id in t.breakpoints ==> Mentions(t.files, t.breakpoints[id].file, t.breakpoints[id].line, id)
    ensures
      var now := Removed(t, id);
      && Consistent(now) && now.breakpoints.Keys == t.breakpoints.Keys - {id}
      && (forall k :: k in now.breakpoints ==>
            now.breakpoints[k].master == if t.breakpoints[k].master == Some(id) then None else t.breakpoints[k].master)
  {
    if id in t.breakpoints {
      var b := t.breakpoints[id];
      assert Mentions(t.files, b.file, b.line, id);
      IsolatedIsAlone(t.breakpoints, id);
      var now := Isolated(t.breakpoints, id);
      hide Linked, Isolated;
      EraseKeepsLinks(now, id);
      EraseKeepsIndex(t, id, now);
    }
  }

  /** Slaves of the removed breakpoint are freed and stop waiting; apart from lists of slaves the
      others stay as they were. */
  lemma RemoveEffect(t: Table, id: int)
    requires Consistent(t) && id in t.breakpoints
    ensures Mentions(t.files, t.breakpoints[id].file, t.breakpoints[id].line, id)
    ensures
      var bs, now := t.breakpoints, Removed(t, id).breakpoints;
      && now.Keys == bs.Keys - {id}
      && (forall k :: k in now ==> SameButSlaves(if bs[k].master == Some(id) then Freed(bs[k]) else bs[k], now[k]))
  {
    var bs := t.breakpoints;
    MasterIsKnown(bs, id);
    MasterKeepsLinks(bs, id, None, false);
    MasterEffect(bs, id, None, false);
    var alone := WithMaster(bs, id, None, false);
    SlavesAreKnown(alone, id);
    forall k | k in bs ensures k in alone[id].slaves <==> alone[k].master == Some(id) {
      assert IsSlaveOf(alone, k, id) <==> alone[k].master == Some(id);
    }
    hide WithMaster;
    AllDetachedEffect(alone, alone[id].slaves);
  }

  lemma EraseKeepsIndex(t: Table, id: int, bs: map<int, Breakpoint>)
    requires Indexed(t) && id in t.breakpoints && SamePlaces(t.breakpoints, bs)
    requires Mentions(t.files, t.breakpoints[id].file, t.breakpoints[id].line, id)
    ensures Indexed(Table(bs - {id}, Unplaced(t.files, t.breakpoints[id].file, t.breakpoints[id].line, id)))
  {
    var b := t.breakpoints[id];
    UnplacedMentions(t.files, b.file, b.line, id);
    var now := Unplaced(t.files, b.file, b.line, id);
    forall f, l: nat | f in now && l < |now[f]| ensures NoDuplicates(now[f][l]) {
      if f != b.file || l != b.line { assert now[f][l] == t.files[f][l]; }
    }
    hide Unplaced, Mentions;
  }

  // ----- Being hit -----

  predicate CanFire(b: Breakpoint) {
    b.settings.enabled && (b.master == None || b.masterWasHit)
  }

  /** The breakpoint fires: it waits for its master again, and its slaves stop waiting. */
  function Hit(bs: map<int, Breakpoint>, id: int): map<int, Breakpoint>
    requires id in bs
  {
    var own := if bs[id].slaveLeaveEnabled then bs else bs[id := bs[id].(masterWasHit := false)];
    map k | k in own :: if k in bs[id].slaves then own[k].(masterWasHit := true) else own[k]
  }

  lemma HitOnlyWakes(bs: map<int, Breakpoint>, id: int)
    requires id in bs
    ensures SamePlaces(bs, Hit(bs, id))
    ensures forall k :: k in bs ==> Hit(bs, id)[k].slaves == bs[k].slaves && Hit(bs, id)[k].master == bs[k].master
    ensures forall k :: k in bs && Hit(bs, id)[k].masterWasHit ==> bs[k].masterWasHit || k in bs[id].slaves
  {
  }

  lemma HitKeepsLinks(bs: map<int, Breakpoint>, id: int)
    requires Linked(bs) && id in bs && CanFire(bs[id])
    ensures Linked(Hit(bs, id)) && SamePlaces(bs, Hit(bs, id))
  {
    HitOnlyWakes(bs, id);
    hide Hit;
    var now := Hit(bs, id);
    forall m, k ensures IsSlaveOf(now, k, m) <==> IsSlaveOf(bs, k, m) {}
    forall k | k in now && now[k].master == Some(k) ensures !now[k].masterWasHit {
      assert IsSlaveOf(bs, k, id) <==> bs[k].master == Some(id);
    }
  }

  /** Firing wakes exactly the breakpoints that have this one as their master. */
  lemma HitEffect(bs: map<int, Breakpoint>, id: int)
    requires Linked(bs) && id in bs && CanFire(bs[id])
    ensures
      forall k :: k in bs ==>
        && k in Hit(bs, id)
        && Hit(bs, id)[k] == bs[k].(masterWasHit := if bs[k].master == Some(id) then true
                                                    else if k == id && !bs[id].slaveLeaveEnabled then false
                                                    else bs[k].masterWasHit)
  {
    forall k | k in bs ensures k in bs[id].slaves <==> bs[k].master == Some(id) {
      assert IsSlaveOf(bs, k, id) <==> bs[k].master == Some(id);
    }
  }

  /** The breakpoint that fires when a statement is reached: the first one on its line. */
  function Fired(t: Table, muted: bool, file: Option<FileId>, line: nat, noBreakpoint: bool,
                 conditionHolds: bool): (id: Option<int>)
    ensures id.Some? ==> id.value in t.breakpoints && CanFire(t.breakpoints[id.value])
  {
    if file.None? || file.value !in t.files || |t.files[file.value]| <= line || t.files[file.value][line] == []
    then None else
    var id := t.files[file.value][line][0];
    if !muted && id in t.breakpoints && CanFire(t.breakpoints[id]) && !noBreakpoint && conditionHolds
    then Some(id)
    else None
  }

  function AfterHit(t: Table, id: int): Table
    requires Consistent(t) && id in t.breakpoints && CanFire(t.breakpoints[id])
  {
    var now := t.(breakpoints := Hit(t.breakpoints, id));
    HitKeepsLinks(t.breakpoints, id);
    PlacesKeepIndex(t, now.breakpoints);
    assert Mentions(now.files, now.breakpoints[id].file, now.breakpoints[id].line, id);
    if t.breakpoints[id].settings.removeAfterHit then Removed(now, id) else now
  }

  lemma HitStaysConsistent(t: Table, id: int)
    requires Consistent(t) && id in t.breakpoints && CanFire(t.breakpoints[id])
    ensures Consistent(AfterHit(t, id))
  {
    var now := t.(breakpoints := Hit(t.breakpoints, id));
    HitKeepsLinks(t.breakpoints, id);
    PlacesKeepIndex(t, now.breakpoints);
    if t.breakpoints[id].settings.removeAfterHit {
      RemoveStaysConsistent(now, id);
    }
    hide Linked, Indexed, Hit;
  }

  /** A breakpoint that is still there after firing is as firing left it. */
  lemma HitOneStays(t: Table, id: int)
    requires Consistent(t) && id in t.breakpoints && CanFire(t.breakpoints[id])
    ensures id in AfterHit(t, id).breakpoints ==> AfterHit(t, id).breakpoints[id] == Hit(t.breakpoints, id)[id]
  {
    var now := t.(breakpoints := Hit(t.breakpoints, id));
    HitKeepsLinks(t.breakpoints, id);
    PlacesKeepIndex(t, now.breakpoints);
    hide Linked, Indexed, Hit, Removed;
    if t.breakpoints[id].settings.removeAfterHit {
      RemoveStaysConsistent(now, id);
    }
  }
}
