/** The walk that leaves one statement per line on which a breakpoint stops. */
module BreakableLines {
  import opened Wrappers
  /** A statement's source reference: its identity and its first line. */
  datatype Srcref = Srcref(id: int, first: nat)

  datatype Statement = Statement(srcref: Option<Srcref>, body: Expr)

  /** Parsed code. A block is a `{` call or an expression vector; its list of srcrefs has an identity. */
  datatype Expr =
    | Leaf
    | FunctionDefinition
    | Call(args: seq<Expr>)
    | Block(id: int, hasSrcrefs: bool, statements: seq<Statement>)

  // ----- The order of the walk -----

  datatype Trace = Trace(visited: seq<Srcref>, processed: set<int>)

  /** The srcrefs visited in an expression, and the blocks that are processed afterwards. */
  function Walk(x: Expr, processed: set<int>): Trace
    decreases x, 0
  {
    match x
    case Leaf => Trace([], processed)
    case FunctionDefinition => Trace([], processed)
    case Call(args) => WalkArgs(args, |args|, processed)
    case Block(id, hasSrcrefs, statements) =>
      if !hasSrcrefs || id in processed then Trace([], processed)
      else WalkStatements(statements, |statements|, processed + {id})
  }

  function WalkArgs(args: seq<Expr>, n: nat, processed: set<int>): Trace
    requires n <= |args|
    decreases args, n
  {
    if n == 0 then Trace([], processed) else
    var before := WalkArgs(args, n - 1, processed);
    var last := Walk(args[n - 1], before.processed);
    Trace(before.visited + last.visited, last.processed)
  }

  function WalkStatements(statements: seq<Statement>, n: nat, processed: set<int>): Trace
    requires n <= |statements|
    decreases statements, n
  {
    if n == 0 then Trace([], processed) else
    var before := WalkStatements(statements, n - 1, processed);
    assert statements[n - 1].body < statements[n - 1];
    var last := Walk(statements[n - 1].body, before.processed);
    Trace(before.visited + Own(statements[n - 1]) + last.visited, last.processed)
  }

  function Own(s: Statement): seq<Srcref> {
    if s.srcref.Some? then [s.srcref.value] else []
  }

  // ----- Flags -----

  function MaxLine(visited: seq<Srcref>): int {
    if visited == [] then -1 else Max(MaxLine(visited[..|visited| - 1]), visited[|visited| - 1].first)
  }

  function Max(a: int, b: int): int { if a < b then b else a }

  /** The k-th visited statement starts on the last line seen so far. */
  predicate IsFlagged(visited: seq<Srcref>, k: nat)
    requires k < |visited|
  {
    visited[k].first == MaxLine(visited[..k])
  }

  function FlaggedIds(visited: seq<Srcref>): set<int> {
    if visited == [] then {} else
    var n := |visited| - 1;
    FlaggedIds(visited[..n]) + if IsFlagged(visited, n) then {visited[n].id} else {}
  }

  class SrcrefPreprocessor {
    var lastBreakpointLine: int
    // attributes of srcrefs and of lists of srcrefs
    var noBreakpoint: set<int>
    var processed: set<int>
    ghost const flagsBefore: set<int>
    ghost var visited: seq<Srcref>

    ghost predicate Valid()
      reads this
    {
      lastBreakpointLine == MaxLine(visited) && noBreakpoint == flagsBefore + FlaggedIds(visited)
    }

    constructor (noBreakpoint: set<int>, processed: set<int>)
      ensures Valid() && this.processed == processed && flagsBefore == noBreakpoint && visited == []
    {
      this.noBreakpoint, this.processed, flagsBefore := noBreakpoint, processed, noBreakpoint;
      lastBreakpointLine, visited := -1, [];
    }

    method Visit(srcref: Srcref)
      requires Valid()
      modifies this
      ensures Valid() && visited == old(visited) + [srcref] && processed == old(processed)
    {
      ghost var now := visited + [srcref];
      assert now[..|visited|] == visited;
      if srcref.first == lastBreakpointLine {
        noBreakpoint := noBreakpoint + {srcref.id};
      }
      lastBreakpointLine := Max(lastBreakpointLine, srcref.first);
      visited := now;
    }

    method Preprocess(x: Expr)
      requires Valid()
      modifies this
      ensures Valid()
      ensures
        var trace := Walk(x, old(processed));
        visited == old(visited) + trace.visited && processed == trace.processed
      decreases x, 0
    {
      hide Valid;
      match x {
        case Leaf =>
        case FunctionDefinition =>
        case Call(args) =>
          for i := 0 to |args|
            invariant Valid()
            invariant
              var trace := WalkArgs(args, i, old(processed));
              visited == old(visited) + trace.visited && processed == trace.processed
          {
            Preprocess(args[i]);
          }
        case Block(id, hasSrcrefs, statements) =>
          if hasSrcrefs && id !in processed {
            PreprocessBlock(id, statements);
          }
      }
    }

    method PreprocessBlock(id: int, statements: seq<Statement>)
      requires Valid()
      modifies this
      ensures Valid()
      ensures
        var trace := WalkStatements(statements, |statements|, old(processed) + {id});
        visited == old(visited) + trace.visited && processed == trace.processed
      decreases statements, |statements| + 1
    {
      processed := processed + {id};
      assert Valid();
      hide Valid;
      ghost var start := processed;
      for i := 0 to |statements|
        invariant Valid()
        invariant
          var trace := WalkStatements(statements, i, start);
          visited == old(visited) + trace.visited && processed == trace.processed
      {
        assert statements[i].body < statements[i];
        StatementsStep(statements, i, start, old(visited));
        PreprocessStatement(statements[i]);
      }
    }

    method PreprocessStatement(s: Statement)
      requires Valid()
      modifies this
      ensures Valid()
      ensures
        var trace := Walk(s.body, old(processed));
        visited == old(visited) + Own(s) + trace.visited && processed == trace.processed
      decreases s.body, 1
    {
      hide Valid, Walk;
      if s.srcref.Some? {
        Visit(s.srcref.value);
      } else {
        assert visited == visited + Own(s);
      }
      Preprocess(s.body);
    }
  }

  lemma StatementsStep(statements: seq<Statement>, i: nat, processed: set<int>, visited: seq<Srcref>)
    requires i < |statements|
    ensures
      var before, after := WalkStatements(statements, i, processed), WalkStatements(statements, i + 1, processed);
      var last := Walk(statements[i].body, before.processed);
      && after.processed == last.processed
      && visited + after.visited == visited + before.visited + Own(statements[i]) + last.visited
  {
    hide Walk, Own;
  }

  /** One walk over code: afterwards the flags are those of the visited statements. */
  method PreprocessSrcrefs(x: Expr, noBreakpoint: set<int>, processed: set<int>)
    returns (flags: set<int>, done: set<int>)
    ensures done == Walk(x, processed).processed
    ensures flags == noBreakpoint + FlaggedIds(Walk(x, processed).visited)
    ensures
      var visited := Walk(x, processed).visited;
      AreNew(visited, noBreakpoint) ==>
        (NeverReturns(visited) <==>
         forall k: nat :: k < |visited| ==> (visited[k].id !in flags <==> IsFirstOnLine(visited, k)))
  {
    hide NeverReturns, IsFirstOnLine, Walk, AreNew, FlaggedIds;
    var preprocessor := new SrcrefPreprocessor(noBreakpoint, processed);
    preprocessor.Preprocess(x);
    assert preprocessor.visited == Walk(x, processed).visited;
    if AreNew(preprocessor.visited, noBreakpoint) {
      OneStatementPerLine(x, noBreakpoint, processed);
    }
    flags, done := preprocessor.noBreakpoint, preprocessor.processed;
  }

  // ----- Which statements stay breakable -----

  /** No earlier visited statement starts on the same line. */
  predicate IsFirstOnLine(visited: seq<Srcref>, k: nat)
    requires k < |visited|
  {
    forall j :: 0 <= j < k ==> visited[j].first != visited[k].first
  }

  /** A statement starts on a line seen before only while no later line has been seen. */
  predicate NeverReturns(visited: seq<Srcref>) {
    forall j, m, k :: 0 <= j < k && 0 <= m < k < |visited| && visited[j].first == visited[k].first ==>
      visited[m].first <= visited[k].first
  }

  lemma {:induction false} MaxLineIsLargest(visited: seq<Srcref>)
    ensures forall j :: 0 <= j < |visited| ==> visited[j].first <= MaxLine(visited)
    ensures visited != [] ==> exists j :: 0 <= j < |visited| && visited[j].first == MaxLine(visited)
  {
    if visited != [] {
      var n := |visited| - 1;
      MaxLineIsLargest(visited[..n]);
      if MaxLine(visited[..n]) >= visited[n].first {
        assert visited[..n] != [];
        var j :| 0 <= j < n && visited[..n][j].first == MaxLine(visited[..n]);
        assert visited[j].first == MaxLine(visited);
      } else {
        assert visited[n].first == MaxLine(visited);
      }
    }
  }

  lemma {:induction false} FlagsAre(visited: seq<Srcref>, id: int)
    ensures
      id in FlaggedIds(visited) <==>
      exists k: nat :: k < |visited| && visited[k].id == id && IsFlagged(visited, k)
  {
    if visited != [] {
      var n := |visited| - 1;
      var front := visited[..n];
      FlagsAre(front, id);
      forall k: nat | k < n ensures IsFlagged(front, k) <==> IsFlagged(visited, k) {
        assert front[..k] == visited[..k];
      }
    }
  }

  /** The visited srcrefs are different objects, and none of them was flagged before. */
  predicate AreNew(visited: seq<Srcref>, noBreakpoint: set<int>) {
    && (forall j, k :: 0 <= j < k < |visited| ==> visited[j].id != visited[k].id)
    && (forall k :: 0 <= k < |visited| ==> visited[k].id !in noBreakpoint)
  }

  /** The walk leaves exactly the first visited statement of every line without a flag, if and only if
      it never returns to a line once a later one has been seen. */
  lemma OneStatementPerLine(x: Expr, noBreakpoint: set<int>, processed: set<int>)
    requires AreNew(Walk(x, processed).visited, noBreakpoint)
    ensures
      var visited := Walk(x, processed).visited;
      var flags := noBreakpoint + FlaggedIds(visited);
      NeverReturns(visited) <==>
      forall k: nat :: k < |visited| ==> (visited[k].id !in flags <==> IsFirstOnLine(visited, k))
  {
    var visited := Walk(x, processed).visited;
    RepeatsAreFlagged(visited);
    hide Walk, IsFlagged, IsFirstOnLine, NeverReturns, FlaggedIds;
    forall k: nat | k < |visited| ensures visited[k].id in FlaggedIds(visited) <==> IsFlagged(visited, k) {
      FlagsAre(visited, visited[k].id);
    }
  }

  /** `{ a` on one line and `} -> f({ b })` on the next: the assignment keeps its target in front, so
      the walk sees the lines 1, 2 and 1. */
  const RIGHT_ASSIGNMENT :=
    Block(10, true, [Statement(Some(Srcref(1, 1)), Call([
      Call([Block(11, true, [Statement(Some(Srcref(2, 2)), Leaf)])]),
      Block(12, true, [Statement(Some(Srcref(3, 1)), Leaf)])]))])

  /** There both statements of line 1 stay without a flag. */
  lemma RightAssignmentReturns()
    ensures
      var visited := Walk(RIGHT_ASSIGNMENT, {}).visited;
      && visited == [Srcref(1, 1), Srcref(2, 2), Srcref(3, 1)]
      && !NeverReturns(visited) && FlaggedIds(visited) == {}
  {
    var target, value := [Statement(Some(Srcref(2, 2)), Leaf)], [Statement(Some(Srcref(3, 1)), Leaf)];
    var args := [Call([Block(11, true, target)]), Block(12, true, value)];
    assert WalkStatements(target, 1, {10, 11}) == Trace([Srcref(2, 2)], {10, 11});
    assert WalkArgs([Block(11, true, target)], 1, {10}) == Trace([Srcref(2, 2)], {10, 11});
    assert WalkStatements(value, 1, {10, 11, 12}) == Trace([Srcref(3, 1)], {10, 11, 12});
    assert WalkArgs(args, 1, {10}) == Trace([Srcref(2, 2)], {10, 11});
    assert WalkArgs(args, 2, {10}) == Trace([Srcref(2, 2), Srcref(3, 1)], {10, 11, 12});
    ReturnsToOne(WalkStatements(RIGHT_ASSIGNMENT.statements, 1, {10}).visited);
  }

  lemma ReturnsToOne(visited: seq<Srcref>)
    requires visited == [Srcref(1, 1), Srcref(2, 2), Srcref(3, 1)]
    ensures !NeverReturns(visited) && FlaggedIds(visited) == {}
  {
    assert visited[0].first == visited[2].first && visited[1].first > visited[2].first;
    assert visited[..1] == [visited[0]] && visited[..2] == [visited[0], visited[1]];
    assert visited[..2][..1] == visited[..1] && visited[..1][..0] == [];
    assert MaxLine(visited[..1]) == 1 && MaxLine(visited[..2]) == 2;
    assert FlaggedIds(visited[..1]) == {} && FlaggedIds(visited[..2]) == {};
  }

  /** On the sequence of visited statements: the flags mark the repeated lines. */
  lemma RepeatsAreFlagged(visited: seq<Srcref>)
    ensures
      NeverReturns(visited) <==>
      forall k: nat :: k < |visited| ==> (IsFlagged(visited, k) <==> !IsFirstOnLine(visited, k))
  {
    hide MaxLine;
    forall k: nat | k < |visited|
      ensures IsFlagged(visited, k) ==> !IsFirstOnLine(visited, k)
      ensures NeverReturns(visited) && !IsFirstOnLine(visited, k) ==> IsFlagged(visited, k)
    {
      MaxLineIsLargest(visited[..k]);
      if IsFlagged(visited, k) {
        NotEmpty(visited, k);
        var j :| 0 <= j < k && visited[..k][j].first == MaxLine(visited[..k]);
        assert visited[j].first == visited[k].first;
      }
      if NeverReturns(visited) && !IsFirstOnLine(visited, k) {
        var j :| 0 <= j < k && visited[j].first == visited[k].first;
        NeverAbove(visited, j, k);
      }
    }
    if !NeverReturns(visited) {
      var j, m, k :| 0 <= j < k && 0 <= m < k < |visited| && visited[j].first == visited[k].first &&
        visited[m].first > visited[k].first;
      ReturnIsNotFlagged(visited, m, k);
      assert !IsFirstOnLine(visited, k);
    }
  }

  lemma ReturnIsNotFlagged(visited: seq<Srcref>, m: nat, k: nat)
    requires m < k < |visited| && visited[m].first > visited[k].first
    ensures !IsFlagged(visited, k)
  {
    MaxLineIsLargest(visited[..k]);
    assert visited[..k][m].first <= MaxLine(visited[..k]);
  }

  lemma NeverAbove(visited: seq<Srcref>, j: nat, k: nat)
    requires NeverReturns(visited) && j < k < |visited| && visited[j].first == visited[k].first
    ensures IsFlagged(visited, k)
  {
    var front := visited[..k];
    MaxLineIsLargest(front);
    assert front[j].first <= MaxLine(front);
    var m :| 0 <= m < k && front[m].first == MaxLine(front);
    hide MaxLine;
    assert visited[m].first <= visited[k].first;
  }

  lemma NotEmpty(visited: seq<Srcref>, k: nat)
    requires k < |visited| && IsFlagged(visited, k)
    ensures k > 0
  {
  }

  /** In particular when the lines never decrease. */
  lemma IncreasingNeverReturns(visited: seq<Srcref>)
    requires forall i, j :: 0 <= i < j < |visited| ==> visited[i].first <= visited[j].first
    ensures NeverReturns(visited)
  {
  }

  // ----- Walking again -----

  /** Nothing is left to process. */
  predicate Done(x: Expr, processed: set<int>)
    decreases x
  {
    match x
    case Leaf => true
    case FunctionDefinition => true
    case Call(args) => forall i :: 0 <= i < |args| ==> Done(args[i], processed)
    case Block(id, hasSrcrefs, statements) => hasSrcrefs ==> id in processed
  }

  lemma {:induction false} WalkFinishes(x: Expr, processed: set<int>)
    ensures processed <= Walk(x, processed).processed && Done(x, Walk(x, processed).processed)
    decreases x, 0
  {
    match x {
      case Leaf =>
      case FunctionDefinition =>
      case Call(args) => ArgsFinish(args, |args|, processed);
      case Block(id, hasSrcrefs, statements) =>
        if hasSrcrefs && id !in processed { StatementsFinish(statements, |statements|, processed + {id}); }
    }
  }

  lemma {:induction false} DoneStays(x: Expr, processed: set<int>, more: set<int>)
    requires Done(x, processed) && processed <= more
    ensures Done(x, more)
    decreases x
  {
    if x.Call? {
      forall i | 0 <= i < |x.args| ensures Done(x.args[i], more) { DoneStays(x.args[i], processed, more); }
    }
  }

  lemma {:induction false} ArgsFinish(args: seq<Expr>, n: nat, processed: set<int>)
    requires n <= |args|
    ensures processed <= WalkArgs(args, n, processed).processed
    ensures forall i :: 0 <= i < n ==> Done(args[i], WalkArgs(args, n, processed).processed)
    decreases args, n
  {
    if n > 0 {
      ArgsFinish(args, n - 1, processed);
      var before := WalkArgs(args, n - 1, processed).processed;
      WalkFinishes(args[n - 1], before);
      forall i | 0 <= i < n - 1 ensures Done(args[i], WalkArgs(args, n, processed).processed) {
        DoneStays(args[i], before, WalkArgs(args, n, processed).processed);
      }
    }
  }

  lemma {:induction false} StatementsFinish(statements: seq<Statement>, n: nat, processed: set<int>)
    requires n <= |statements|
    ensures processed <= WalkStatements(statements, n, processed).processed
    decreases statements, n
  {
    if n > 0 {
      StatementsFinish(statements, n - 1, processed);
      assert statements[n - 1].body < statements[n - 1];
      WalkFinishes(statements[n - 1].body, WalkStatements(statements, n - 1, processed).processed);
    }
  }

  lemma {:induction false} DoneIsSkipped(x: Expr, processed: set<int>)
    requires Done(x, processed)
    ensures Walk(x, processed) == Trace([], processed)
    decreases x, 0
  {
    if x.Call? { DoneArgsAreSkipped(x.args, |x.args|, processed); }
  }

  lemma {:induction false} DoneArgsAreSkipped(args: seq<Expr>, n: nat, processed: set<int>)
    requires n <= |args| && forall i :: 0 <= i < |args| ==> Done(args[i], processed)
    ensures WalkArgs(args, n, processed) == Trace([], processed)
    decreases args, n
  {
    if n > 0 {
      DoneArgsAreSkipped(args, n - 1, processed);
      DoneIsSkipped(args[n - 1], processed);
    }
  }

  /** A second walk visits nothing, so it changes no flag. */
  lemma SecondWalkChangesNothing(x: Expr, processed: set<int>)
    ensures
      var done := Walk(x, processed).processed;
      Walk(x, done) == Trace([], done) && FlaggedIds(Walk(x, done).visited) == {}
  {
    WalkFinishes(x, processed);
    DoneIsSkipped(x, Walk(x, processed).processed);
  }

  // ----- Which statements are visited -----

  /** The block is part of the code, outside all function definitions and blocks without srcrefs. */
  predicate Within(block: Expr, x: Expr)
    decreases x
  {
    match x
    case Leaf => false
    case FunctionDefinition => false
    case Call(args) => exists i | 0 <= i < |args| :: Within(block, args[i])
    case Block(_, hasSrcrefs, statements) =>
      hasSrcrefs && (block == x || exists i | 0 <= i < |statements| :: Within(block, statements[i].body))
  }

  /** All statements of the block have been visited, and nothing is left to process in them. */
  ghost predicate Covered(block: Expr, trace: Trace) {
    block.Block? && forall i | 0 <= i < |block.statements| ::
      (forall r <- Own(block.statements[i]) :: r in trace.visited) && Done(block.statements[i].body, trace.processed)
  }

  /** A later point of the same walk. */
  ghost predicate Extends(before: Trace, after: Trace) {
    before.processed <= after.processed && forall r <- before.visited :: r in after.visited
  }

  lemma CoveredStays(block: Expr, before: Trace, after: Trace)
    requires Covered(block, before) && Extends(before, after)
    ensures Covered(block, after)
  {
    hide Done, Own;
    forall i | 0 <= i < |block.statements| ensures Done(block.statements[i].body, after.processed) {
      DoneStays(block.statements[i].body, before.processed, after.processed);
    }
  }

  lemma LastStatement(statements: seq<Statement>, n: nat, processed: set<int>)
    requires 0 < n <= |statements|
    ensures
      var before, now := WalkStatements(statements, n - 1, processed), WalkStatements(statements, n, processed);
      var last := Walk(statements[n - 1].body, before.processed);
      && Extends(before, now) && Extends(last, now) && now.processed == last.processed
      && (forall r <- Own(statements[n - 1]) :: r in now.visited)
      && (forall r <- now.visited :: r in before.visited || r in Own(statements[n - 1]) || r in last.visited)
  {
    WalkFinishes(statements[n - 1].body, WalkStatements(statements, n - 1, processed).processed);
    hide Walk, Own, Done;
  }

  lemma LastArg(args: seq<Expr>, n: nat, processed: set<int>)
    requires 0 < n <= |args|
    ensures
      var before, now := WalkArgs(args, n - 1, processed), WalkArgs(args, n, processed);
      var last := Walk(args[n - 1], before.processed);
      && Extends(before, now) && Extends(last, now) && now.processed == last.processed
      && (forall r <- now.visited :: r in before.visited || r in last.visited)
  {
    WalkFinishes(args[n - 1], WalkArgs(args, n - 1, processed).processed);
    hide Walk, Done;
  }

  lemma {:induction false} OwnAreVisited(statements: seq<Statement>, n: nat, processed: set<int>)
    requires n <= |statements|
    ensures
      var trace := WalkStatements(statements, n, processed);
      forall i | 0 <= i < n ::
        (forall r <- Own(statements[i]) :: r in trace.visited) && Done(statements[i].body, trace.processed)
  {
    if n > 0 {
      OwnAreVisited(statements, n - 1, processed);
      LastStatement(statements, n, processed);
      var before, now := WalkStatements(statements, n - 1, processed), WalkStatements(statements, n, processed);
      WalkFinishes(statements[n - 1].body, before.processed);
      hide Walk, WalkStatements, Own, Done;
      forall i | 0 <= i < n - 1 ensures Done(statements[i].body, now.processed) {
        DoneStays(statements[i].body, before.processed, now.processed);
      }
    }
  }

  /** A block that a walk processes is part of the code, and the walk covers it. */
  lemma {:induction false} ProcessedAreCovered(x: Expr, processed: set<int>, id: int) returns (block: Expr)
    requires id in Walk(x, processed).processed && id !in processed
    ensures Within(block, x) && Covered(block, Walk(x, processed)) && block.id == id
    decreases x, 0
  {
    if x.Call? {
      var i: nat;
      i, block := ArgsAreCovered(x.args, |x.args|, processed, id);
    } else {
      OwnAreVisited(x.statements, |x.statements|, processed + {x.id});
      if id == x.id {
        block := x;
      } else {
        var i: nat;
        i, block := StatementsAreCovered(x.statements, |x.statements|, processed + {x.id}, id);
      }
    }
    hide Covered, Done, WalkArgs, WalkStatements;
  }

  lemma {:induction false} ArgsAreCovered(args: seq<Expr>, n: nat, processed: set<int>, id: int)
    returns (i: nat, block: Expr)
    requires n <= |args| && id in WalkArgs(args, n, processed).processed && id !in processed
    ensures i < n && Within(block, args[i]) && block.Block? && block.id == id
    ensures Covered(block, WalkArgs(args, n, processed))
    decreases args, n
  {
    LastArg(args, n, processed);
    var before, now := WalkArgs(args, n - 1, processed), WalkArgs(args, n, processed);
    if id in before.processed {
      i, block := ArgsAreCovered(args, n - 1, processed, id);
      CoveredStays(block, before, now);
    } else {
      i := n - 1;
      block := ProcessedAreCovered(args[i], before.processed, id);
      CoveredStays(block, Walk(args[i], before.processed), now);
    }
  }

  lemma {:induction false} StatementsAreCovered(statements: seq<Statement>, n: nat, processed: set<int>, id: int)
    returns (i: nat, block: Expr)
    requires n <= |statements| && id in WalkStatements(statements, n, processed).processed && id !in processed
    ensures i < n && Within(block, statements[i].body) && block.Block? && block.id == id
    ensures Covered(block, WalkStatements(statements, n, processed))
    decreases statements, n
  {
    LastStatement(statements, n, processed);
    var before, now := WalkStatements(statements, n - 1, processed), WalkStatements(statements, n, processed);
    if id in before.processed {
      i, block := StatementsAreCovered(statements, n - 1, processed, id);
      CoveredStays(block, before, now);
    } else {
      i := n - 1;
      assert statements[i].body < statements[i];
      block := ProcessedAreCovered(statements[i].body, before.processed, id);
      CoveredStays(block, Walk(statements[i].body, before.processed), now);
    }
  }

  /** The srcref belongs to a statement of the block. */
  predicate OwnsOne(block: Expr, r: Srcref) {
    block.Block? && exists s <- block.statements :: r in Own(s)
  }

  /** A visited srcref belongs to a statement of a block that the walk processes. */
  lemma {:induction false} VisitedAreWithin(x: Expr, processed: set<int>, r: Srcref) returns (block: Expr)
    requires r in Walk(x, processed).visited
    ensures Within(block, x) && OwnsOne(block, r)
    ensures block.id in Walk(x, processed).processed && block.id !in processed
    decreases x, 0
  {
    if x.Call? {
      var i: nat;
      i, block := ArgVisits(x.args, |x.args|, processed, r);
    } else {
      StatementsFinish(x.statements, |x.statements|, processed + {x.id});
      var i: nat;
      i, block := StatementVisits(x.statements, |x.statements|, processed + {x.id}, r);
      if r in Own(x.statements[i]) { block := x; }
    }
    hide WalkArgs, WalkStatements, Own;
  }

  lemma {:induction false} ArgVisits(args: seq<Expr>, n: nat, processed: set<int>, r: Srcref)
    returns (i: nat, block: Expr)
    requires n <= |args| && r in WalkArgs(args, n, processed).visited
    ensures i < n && Within(block, args[i]) && OwnsOne(block, r)
    ensures block.id in WalkArgs(args, n, processed).processed && block.id !in processed
    decreases args, n
  {
    LastArg(args, n, processed);
    ArgsFinish(args, n - 1, processed);
    var before := WalkArgs(args, n - 1, processed);
    if r in before.visited {
      i, block := ArgVisits(args, n - 1, processed, r);
    } else {
      i := n - 1;
      block := VisitedAreWithin(args[i], before.processed, r);
    }
  }

  lemma {:induction false} StatementVisits(statements: seq<Statement>, n: nat, processed: set<int>, r: Srcref)
    returns (i: nat, block: Expr)
    requires n <= |statements| && r in WalkStatements(statements, n, processed).visited
    ensures i < n
    ensures r in Own(statements[i]) ||
            (&& Within(block, statements[i].body) && OwnsOne(block, r)
             && block.id in WalkStatements(statements, n, processed).processed && block.id !in processed)
    decreases statements, n
  {
    LastStatement(statements, n, processed);
    StatementsFinish(statements, n - 1, processed);
    var before := WalkStatements(statements, n - 1, processed);
    block := Leaf;
    if r in before.visited {
      i, block := StatementVisits(statements, n - 1, processed, r);
    } else {
      i := n - 1;
      assert statements[i].body < statements[i];
      if r !in Own(statements[i]) { block := VisitedAreWithin(statements[i].body, before.processed, r); }
    }
  }

  /** The code is new: none of its blocks is processed yet, and their ids are their own. */
  ghost predicate IsNewCode(x: Expr, processed: set<int>) {
    && (forall block | Within(block, x) :: block.Block? && block.id !in processed)
    && (forall a, b | Within(a, x) && Within(b, x) :: a.id == b.id ==> a == b)
  }

  /** In new code nothing is left out: y is a part of it that the walk is done with. */
  lemma {:induction false} AllAreCovered(y: Expr, x: Expr, processed: set<int>, block: Expr)
    requires IsNewCode(x, processed) && Done(y, Walk(x, processed).processed) && Within(block, y)
    requires forall b | Within(b, y) :: Within(b, x)
    ensures Covered(block, Walk(x, processed))
    decreases y
  {
    match y {
      case Call(args) =>
        var i :| 0 <= i < |args| && Within(block, args[i]);
        AllAreCovered(args[i], x, processed, block);
      case Block(id, _, statements) =>
        assert Within(y, y);
        var found := ProcessedAreCovered(x, processed, id);
        assert found == y;
        if block != y {
          var i :| 0 <= i < |statements| && Within(block, statements[i].body);
          assert statements[i].body < statements[i];
          AllAreCovered(statements[i].body, x, processed, block);
        }
    }
  }

  /** A walk over new code visits exactly the statements of its blocks that have a srcref. */
  lemma WalkVisitsAll(x: Expr, processed: set<int>, r: Srcref)
    requires IsNewCode(x, processed)
    ensures r in Walk(x, processed).visited <==> exists block :: Within(block, x) && OwnsOne(block, r)
  {
    hide Walk, Within, Own;
    if r in Walk(x, processed).visited {
      var block := VisitedAreWithin(x, processed, r);
    }
    if block :| Within(block, x) && OwnsOne(block, r) {
      WalkFinishes(x, processed);
      AllAreCovered(x, x, processed, block);
      var s :| s in block.statements && r in Own(s);
      var i :| 0 <= i < |block.statements| && block.statements[i] == s;
      assert forall q <- Own(block.statements[i]) :: q in Walk(x, processed).visited;
    }
  }
}
