/** The printer records every block it prints. */
module SourceBlocks {
  import opened StringUtil
  import opened TextBuilder

  // ----- The blocks of an expression -----

  /** The `{` calls that are printed with e, each after the blocks inside it. */
  function Blocks(e: Expr): seq<Expr>
    decreases e, 1
  {
    match e
    case PairList(items) => ItemBlocks(items, |items|)
    case Closure(formals, body, generated) => HeaderBlocks(formals) + Blocks(BodyOf(body, generated))
    case Call(f, args) =>
      (match FormOf(f, args)
       case Block => ItemBlocks(args, |args|) + [e]
       case FunctionDef => HeaderBlocks(args[0].value) + Blocks(args[1].value)
       case Plain => Blocks(f) + ItemBlocks(args, |args|)
       case _ => ItemBlocks(args, |args|))
    case StringVector(strings) => StringBlocks(strings, |strings|)
    case GenericVector(_, members) => ItemBlocks(members, |members|)
    case _ => []
  }

  function ItemBlocks(items: seq<Item>, n: nat): seq<Expr>
    requires n <= |items|
    decreases items, n
  {
    if n == 0 then [] else ItemBlocks(items, n - 1) + Blocks(items[n - 1].value)
  }

  function StringBlocks(exprs: seq<Expr>, n: nat): seq<Expr>
    requires n <= |exprs|
    decreases exprs, n
  {
    if n == 0 then [] else StringBlocks(exprs, n - 1) + Blocks(exprs[n - 1])
  }

  /** The blocks in the default values of formals. */
  function HeaderBlocks(formals: Expr): seq<Expr>
    decreases formals, 2
  {
    if formals.PairList? then FormalBlocks(formals.items, |formals.items|) else []
  }

  function FormalBlocks(items: seq<Item>, n: nat): seq<Expr>
    requires n <= |items|
    decreases items, n
  {
    if n == 0 then [] else
    FormalBlocks(items, n - 1) + if IsMissing(items[n - 1].value) then [] else Blocks(items[n - 1].value)
  }

  function BlocksOf(records: seq<Record>): seq<Expr> {
    seq(|records|, k requires 0 <= k < |records| => records[k].block)
  }

  // ----- Printing records them -----

  /** The blocks recorded so far. */
  predicate Has(out: Out, blocks: seq<Expr>) { BlocksOf(out.records) == blocks }

  lemma PutKeeps(blocks: seq<Expr>)
    ensures forall out: Out, t {:trigger Has(out.Put(t), blocks)} :: Has(out, blocks) ==> Has(out.Put(t), blocks)
  {
  }

  lemma Regroup(a: seq<Expr>, b: seq<Expr>, c: seq<Expr>)
    ensures a + b + c == a + (b + c)
  {
  }

  lemma {:induction false} EmitAdds(e: Expr, ind: nat, before: seq<Expr>, out: Out)
    requires Has(out, before)
    ensures Has(Emit(e, ind, out), before + Blocks(e))
    decreases e, 1
  {
    PutKeeps(before);
    PutKeeps(before + Blocks(e));
    assert before + [] == before;
    hide Has, EmitCall, EmitItems, EmitHeader, EmitAll, Out.Put, Elements, Spaces, PrimitiveArgs,
         ItemBlocks, StringBlocks, HeaderBlocks, FormOf;
    match e {
      case PairList(items) => ItemsAdd(items, 0, |items|, ind, before, out.Put("pairlist("));
      case Closure(formals, body, generated) =>
        HeaderAdds(formals, ind, before, out);
        PutKeeps(before + HeaderBlocks(formals));
        EmitAdds(BodyOf(body, generated), ind, before + HeaderBlocks(formals), EmitHeader(formals, ind, out).Put(" "));
        Regroup(before, HeaderBlocks(formals), Blocks(BodyOf(body, generated)));
      case Call(f, args) => CallAdds(e, ind, before, out);
      case StringVector(strings) =>
        StringsAdd(strings, |strings|, ind, before, out);
        StringsAdd(strings, |strings|, ind, before, out.Put("c("));
      case GenericVector(isExpression, members) =>
        ItemsAdd(members, 0, |members|, ind, before, out.Put(if isExpression then "expression(" else "list("));
      case _ =>
    }
  }

  lemma {:induction false} CallAdds(e: Expr, ind: nat, before: seq<Expr>, out: Out)
    requires e.Call? && Has(out, before)
    ensures Has(EmitCall(e, ind, out), before + Blocks(e))
    decreases e, 0
  {
    PutKeeps(before);
    PutKeeps(before + Blocks(e));
    var args := e.args;
    match FormOf(e.function_, args) {
      case Block => BlockAdds(e, ind, before, out);
      case FunctionDef =>
        var head := HeaderBlocks(args[0].value);
        PutKeeps(before + head);
        hide Has, Emit, EmitHeader, Out.Put, HeaderBlocks, ItemBlocks;
        HeaderAdds(args[0].value, ind, before, out);
        EmitAdds(args[1].value, ind, before + head, EmitHeader(args[0].value, ind, out).Put(" "));
        Regroup(before, head, Blocks(args[1].value));
      case Plain =>
        var head := Blocks(e.function_);
        PutKeeps(before + head);
        hide Has, Emit, EmitItems, Out.Put, ItemBlocks;
        EmitAdds(e.function_, ind, before, out);
        ItemsAdd(args, 0, |args|, ind, before + head, Emit(e.function_, ind, out).Put("("));
        Regroup(before, head, ItemBlocks(args, |args|));
      case Index(op) =>
        hide Has, Emit, EmitItems, Out.Put;
        ArgAdds(args, 0, ind, before, out);
        PutKeeps(before + ItemBlocks(args, 1));
        ItemsAdd(args, 1, |args|, ind, before, Emit(args[0].value, ind, out).Put(op));
      case Word(op) =>
      case If => LongFormAdds(e, ind, before, out);
      case For => LongFormAdds(e, ind, before, out);
      case _ => ShortFormAdds(e, ind, before, out);
    }
  }

  /** The forms that print one or two arguments with fixed texts around them. */
  lemma {:induction false} ShortFormAdds(e: Expr, ind: nat, before: seq<Expr>, out: Out)
    requires e.Call? && Has(out, before)
    requires
      var form := FormOf(e.function_, e.args);
      form.Paren? || form.Unary? || form.Binary? || form.While? || form.Repeat?
    ensures Has(EmitCall(e, ind, out), before + Blocks(e))
    decreases e.args, |e.args| + 1
  {
    var args := e.args;
    PutKeeps(before);
    PutKeeps(before + ItemBlocks(args, 1));
    if |args| >= 2 { PutKeeps(before + ItemBlocks(args, 2)); }
    hide Has, Emit, Out.Put, ItemBlocks;
    match FormOf(e.function_, args) {
      case Paren => ArgAdds(args, 0, ind, before, out.Put("("));
      case Unary(op) => ArgAdds(args, 0, ind, before, out.Put(op));
      case Binary(op) =>
        ArgAdds(args, 0, ind, before, out);
        var x := Emit(args[0].value, ind, out);
        ArgAdds(args, 1, ind, before, x.Put(op));
        ArgAdds(args, 1, ind, before, x.Put(" ").Put(op).Put(" "));
      case While =>
        ArgAdds(args, 0, ind, before, out.Put("while ("));
        ArgAdds(args, 1, ind, before, Emit(args[0].value, ind, out.Put("while (")).Put(") "));
      case Repeat => ArgAdds(args, 0, ind, before, out.Put("repeat "));
    }
  }

  /** The forms that may print three. */
  lemma {:induction false} LongFormAdds(e: Expr, ind: nat, before: seq<Expr>, out: Out)
    requires e.Call? && Has(out, before)
    requires var form := FormOf(e.function_, e.args); form.If? || form.For?
    ensures Has(EmitCall(e, ind, out), before + Blocks(e))
    decreases e.args, |e.args| + 1
  {
    var args := e.args;
    PutKeeps(before);
    PutKeeps(before + ItemBlocks(args, 1));
    PutKeeps(before + ItemBlocks(args, 2));
    hide Has, Emit, Out.Put, ItemBlocks;
    match FormOf(e.function_, args) {
      case If =>
        ArgAdds(args, 0, ind, before, out.Put("if ("));
        var x := Emit(args[0].value, ind, out.Put("if ("));
        ArgAdds(args, 1, ind, before, x.Put(") "));
        if |args| == 3 { ArgAdds(args, 2, ind, before, Emit(args[1].value, ind, x.Put(") ")).Put(" else ")); }
      case For =>
        ArgAdds(args, 0, ind, before, out.Put("for ("));
        var x := Emit(args[0].value, ind, out.Put("for ("));
        ArgAdds(args, 1, ind, before, x.Put(" in "));
        ArgAdds(args, 2, ind, before, Emit(args[1].value, ind, x.Put(" in ")).Put(") "));
    }
  }

  /** One more argument. */
  lemma {:induction false} ArgAdds(args: seq<Item>, i: nat, ind: nat, before: seq<Expr>, out: Out)
    requires i < |args| && (if i == 0 then Has(out, before) else Has(out, before + ItemBlocks(args, i)))
    ensures Has(Emit(args[i].value, ind, out), before + ItemBlocks(args, i + 1))
    decreases args, i
  {
    hide Has, Emit, Blocks;
    var first := ItemBlocks(args, i);
    assert i == 0 ==> before + first == before;
    EmitAdds(args[i].value, ind, before + first, out);
    Regroup(before, first, Blocks(args[i].value));
  }

  lemma {:induction false} ItemsAdd(items: seq<Item>, from: nat, n: nat, ind: nat, before: seq<Expr>, out: Out)
    requires from <= n <= |items|
    requires if from == 0 then Has(out, before) else Has(out, before + ItemBlocks(items, from))
    ensures Has(EmitItems(items, from, n, ind, out), before + ItemBlocks(items, n))
    decreases items, n
  {
    hide Has, Emit, Blocks, NamePrefix;
    if n > from {
      ItemsAdd(items, from, n - 1, ind, before, out);
      var first := before + ItemBlocks(items, n - 1);
      PutKeeps(first);
      var x := EmitItems(items, from, n - 1, ind, out).Put(Separator(n - 1 - from)).Put(NamePrefix(items[n - 1].name));
      EmitAdds(items[n - 1].value, ind, first, x);
      Regroup(before, ItemBlocks(items, n - 1), Blocks(items[n - 1].value));
    } else if n == 0 {
      assert before + ItemBlocks(items, 0) == before;
    }
  }

  lemma {:induction false} StringsAdd(exprs: seq<Expr>, n: nat, ind: nat, before: seq<Expr>, out: Out)
    requires n <= |exprs| && Has(out, before)
    ensures Has(EmitAll(exprs, n, ind, out), before + StringBlocks(exprs, n))
    decreases exprs, n
  {
    hide Has, Emit, Blocks;
    if n > 0 {
      StringsAdd(exprs, n - 1, ind, before, out);
      var first := before + StringBlocks(exprs, n - 1);
      PutKeeps(first);
      EmitAdds(exprs[n - 1], ind, first, EmitAll(exprs, n - 1, ind, out).Put(Separator(n - 1)));
      Regroup(before, StringBlocks(exprs, n - 1), Blocks(exprs[n - 1]));
    } else {
      assert before + StringBlocks(exprs, 0) == before;
    }
  }

  lemma {:induction false} HeaderAdds(formals: Expr, ind: nat, before: seq<Expr>, out: Out)
    requires Has(out, before)
    ensures Has(EmitHeader(formals, ind, out), before + HeaderBlocks(formals))
    decreases formals, 2
  {
    PutKeeps(before);
    PutKeeps(before + HeaderBlocks(formals));
    assert before + [] == before;
    hide Has;
    if formals.PairList? {
      FormalsAdd(formals.items, |formals.items|, ind, before, out.Put("function("));
    }
  }

  lemma {:induction false} FormalsAdd(items: seq<Item>, n: nat, ind: nat, before: seq<Expr>, out: Out)
    requires n <= |items| && Has(out, before)
    ensures Has(EmitFormals(items, n, ind, out), before + FormalBlocks(items, n))
    decreases items, n
  {
    hide Has, Emit, Blocks, Quoted, FormalName;
    if n > 0 {
      FormalsAdd(items, n - 1, ind, before, out);
      var first := before + FormalBlocks(items, n - 1);
      PutKeeps(first);
      var x := EmitFormals(items, n - 1, ind, out).Put(Separator(n - 1)).Put(Quoted(FormalName(items, n - 1)));
      EmitAdds(items[n - 1].value, ind, first, x.Put(" = "));
      Regroup(before, FormalBlocks(items, n - 1), Blocks(items[n - 1].value));
      assert FormalBlocks(items, n - 1) + [] == FormalBlocks(items, n - 1);
    } else {
      assert before + FormalBlocks(items, 0) == before;
    }
  }

  lemma {:induction false} StatementsAdd(args: seq<Item>, n: nat, ind: nat, before: seq<Expr>, out: Out)
    requires n <= |args| && Has(out, before)
    ensures Has(EmitStatements(args, n, ind, out).0, before + ItemBlocks(args, n))
    decreases args, n
  {
    hide Has, Emit, Blocks, Spaces;
    if n > 0 {
      StatementsAdd(args, n - 1, ind, before, out);
      var first := before + ItemBlocks(args, n - 1);
      PutKeeps(first);
      EmitAdds(args[n - 1].value, ind, first, EmitStatements(args, n - 1, ind, out).0.Put("\n").Put(Spaces(ind)));
      Regroup(before, ItemBlocks(args, n - 1), Blocks(args[n - 1].value));
    } else {
      assert before + ItemBlocks(args, 0) == before;
    }
  }

  lemma {:induction false} BlockAdds(e: Expr, ind: nat, before: seq<Expr>, out: Out)
    requires e.Call? && FormOf(e.function_, e.args) == Block && Has(out, before)
    ensures Has(EmitCall(e, ind, out), before + Blocks(e))
    decreases e.args, |e.args| + 1
  {
    var args := e.args;
    PutKeeps(before);
    StatementsAdd(args, |args|, ind + 1, before, out.Put("{"));
    var inner := EmitStatements(args, |args|, ind + 1, out.Put("{"));
    var first := before + ItemBlocks(args, |args|);
    PutKeeps(first);
    var closed := inner.0.Put("\n").Put(Spaces(ind)).Put("}");
    OneMoreRecord(closed, first, Record(e, ind, [Span(|out.text|, |out.text| + 1)] + inner.1));
    Regroup(before, ItemBlocks(args, |args|), [e]);
    hide Emit, EmitStatements, ItemBlocks, Has, Spaces, Out.Put;
  }

  lemma OneMoreRecord(out: Out, blocks: seq<Expr>, r: Record)
    requires Has(out, blocks)
    ensures Has(out.(records := out.records + [r]), blocks + [r.block])
  {
  }

  /** The printed blocks are exactly the `{` calls reached, innermost first, each recorded once. */
  lemma EveryBlockIsRecorded(e: Expr, ind: nat)
    ensures BlocksOf(Emit(e, ind, EMPTY).records) == Blocks(e)
  {
    EmitAdds(e, ind, [], EMPTY);
    assert [] + Blocks(e) == Blocks(e);
  }
}
