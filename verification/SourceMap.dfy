/** Every recorded statement range cuts exactly the statement's text out of the printed source. */
module SourceMap {
  import opened StringUtil
  import opened SourceText
  import opened TextBuilder

  /** The record's spans hold the `{` and then the statements, one after the other. */
  ghost predicate RecordOk(text: string, r: Record) {
    && r.block.Call? && |r.spans| == |r.block.args| + 1
    && (forall i :: 0 <= i < |r.spans| ==> r.spans[i].from <= r.spans[i].to < |text|)
    && (forall i :: 0 <= i < |r.block.args| ==> r.spans[i].to < r.spans[i + 1].from)
    && text[r.spans[0].from..r.spans[0].to] == "{"
    && (forall i :: 0 <= i < |r.block.args| ==>
          text[r.spans[i + 1].from..r.spans[i + 1].to] == Printed(r.block.args[i].value, r.indent + 1))
  }

  ghost predicate RecordsOk(out: Out) {
    forall r <- out.records :: RecordOk(out.text, r)
  }

  /** Printing went on from `base`, and all records made so far are right. */
  ghost predicate From(base: Out, out: Out) {
    base.text <= out.text && base.records <= out.records && RecordsOk(out)
  }

  lemma RecordStays(text: string, more: string, r: Record)
    requires RecordOk(text, r)
    ensures RecordOk(text + more, r)
  {
    forall i | 0 <= i < |r.spans|
      ensures (text + more)[r.spans[i].from..r.spans[i].to] == text[r.spans[i].from..r.spans[i].to]
    {
    }
  }

  lemma AllRecordsOk(base: Out, out: Out)
    requires From(base, out)
    ensures RecordsOk(out)
  {
  }

  lemma PutFrom(base: Out)
    ensures forall out: Out, t {:trigger From(base, out.Put(t))} :: From(base, out) ==> From(base, out.Put(t))
  {
    forall out: Out, t | From(base, out) ensures From(base, out.Put(t)) {
      forall r | r in out.records ensures RecordOk(out.text + t, r) {
        RecordStays(out.text, t, r);
      }
    }
  }

  lemma {:induction false} EmitFrom(e: Expr, ind: nat, base: Out, out: Out)
    requires From(base, out)
    ensures From(base, Emit(e, ind, out))
    decreases e, 1
  {
    PutFrom(base);
    hide From, EmitCall, EmitItems, EmitHeader, EmitAll, Out.Put, Elements, Spaces, PrimitiveArgs, Escaped, Quoted;
    match e {
      case PairList(items) => ItemsFrom(items, 0, |items|, ind, base, out.Put("pairlist("));
      case Closure(formals, body, generated) =>
        HeaderFrom(formals, ind, base, out);
        EmitFrom(BodyOf(body, generated), ind, base, EmitHeader(formals, ind, out).Put(" "));
      case Call(f, args) => CallFrom(e, ind, base, out);
      case StringVector(strings) =>
        AllFrom(strings, |strings|, ind, base, out);
        AllFrom(strings, |strings|, ind, base, out.Put("c("));
      case GenericVector(isExpression, members) =>
        ItemsFrom(members, 0, |members|, ind, base, out.Put(if isExpression then "expression(" else "list("));
      case _ =>
    }
  }

  lemma {:induction false} CallFrom(e: Expr, ind: nat, base: Out, out: Out)
    requires e.Call? && From(base, out)
    ensures From(base, EmitCall(e, ind, out))
    decreases e, 0
  {
    PutFrom(base);
    hide From, Emit, EmitItems, EmitHeader, Spaces, Out.Put, EmitStatements;
    var args := e.args;
    match FormOf(e.function_, args) {
      case Block =>
        assert RecordsOk(out) by { AllRecordsOk(base, out); }
        BlockFrom(e, ind, base, out);
      case If =>
        var x := TwoFrom(args[0].value, args[1].value, ind, base, out.Put("if ("), ") ");
        if |args| == 3 { EmitFrom(args[2].value, ind, base, x.Put(" else ")); }
      case Paren => EmitFrom(args[0].value, ind, base, out.Put("("));
      case FunctionDef =>
        HeaderFrom(args[0].value, ind, base, out);
        EmitFrom(args[1].value, ind, base, EmitHeader(args[0].value, ind, out).Put(" "));
      case Unary(op) => EmitFrom(args[0].value, ind, base, out.Put(op));
      case Binary(op) =>
        EmitFrom(args[0].value, ind, base, out);
        var x := Emit(args[0].value, ind, out);
        EmitFrom(args[1].value, ind, base, x.Put(op));
        EmitFrom(args[1].value, ind, base, x.Put(" ").Put(op).Put(" "));
      case Index(op) =>
        EmitFrom(args[0].value, ind, base, out);
        ItemsFrom(args, 1, |args|, ind, base, Emit(args[0].value, ind, out).Put(op));
      case Word(op) =>
      case For =>
        var x := TwoFrom(args[0].value, args[1].value, ind, base, out.Put("for ("), " in ");
        EmitFrom(args[2].value, ind, base, x.Put(") "));
      case While =>
        var x := TwoFrom(args[0].value, args[1].value, ind, base, out.Put("while ("), ") ");
      case Repeat => EmitFrom(args[0].value, ind, base, out.Put("repeat "));
      case Plain =>
        EmitFrom(e.function_, ind, base, out);
        ItemsFrom(args, 0, |args|, ind, base, Emit(e.function_, ind, out).Put("("));
    }
  }

  lemma {:induction false} TwoFrom(e: Expr, f: Expr, ind: nat, base: Out, out: Out, between: string) returns (x: Out)
    requires From(base, out)
    ensures x == Emit(f, ind, Emit(e, ind, out).Put(between)) && From(base, x)
    decreases if e < f then f else e, 2
  {
    PutFrom(base);
    hide From, Emit;
    EmitFrom(e, ind, base, out);
    x := Emit(f, ind, Emit(e, ind, out).Put(between));
    EmitFrom(f, ind, base, Emit(e, ind, out).Put(between));
  }

  lemma {:induction false} ItemsFrom(items: seq<Item>, from: nat, n: nat, ind: nat, base: Out, out: Out)
    requires n <= |items| && From(base, out)
    ensures From(base, EmitItems(items, from, n, ind, out))
    decreases items, n
  {
    PutFrom(base);
    hide From, Emit, NamePrefix;
    if n > from {
      ItemsFrom(items, from, n - 1, ind, base, out);
      var x := EmitItems(items, from, n - 1, ind, out);
      EmitFrom(items[n - 1].value, ind, base, x.Put(Separator(n - 1 - from)).Put(NamePrefix(items[n - 1].name)));
    }
  }

  lemma {:induction false} AllFrom(exprs: seq<Expr>, n: nat, ind: nat, base: Out, out: Out)
    requires n <= |exprs| && From(base, out)
    ensures From(base, EmitAll(exprs, n, ind, out))
    decreases exprs, n
  {
    PutFrom(base);
    hide From, Emit;
    if n > 0 {
      AllFrom(exprs, n - 1, ind, base, out);
      EmitFrom(exprs[n - 1], ind, base, EmitAll(exprs, n - 1, ind, out).Put(Separator(n - 1)));
    }
  }

  lemma {:induction false} HeaderFrom(formals: Expr, ind: nat, base: Out, out: Out)
    requires From(base, out)
    ensures From(base, EmitHeader(formals, ind, out))
    decreases formals, 2
  {
    PutFrom(base);
    hide From;
    if formals.PairList? {
      FormalsFrom(formals.items, |formals.items|, ind, base, out.Put("function("));
    }
  }

  lemma {:induction false} FormalsFrom(items: seq<Item>, n: nat, ind: nat, base: Out, out: Out)
    requires n <= |items| && From(base, out)
    ensures From(base, EmitFormals(items, n, ind, out))
    decreases items, n
  {
    PutFrom(base);
    hide From, Emit, Quoted, FormalName;
    if n > 0 {
      FormalsFrom(items, n - 1, ind, base, out);
      var x := EmitFormals(items, n - 1, ind, out).Put(Separator(n - 1)).Put(Quoted(FormalName(items, n - 1)));
      EmitFrom(items[n - 1].value, ind, base, x.Put(" = "));
    }
  }

  /** The statements printed so far stand where the spans say, after position `from`. */
  ghost predicate StatementsOk(text: string, spans: seq<Span>, args: seq<Item>, n: nat, ind: nat, from: nat) {
    && |spans| == n <= |args| && from <= |text|
    && (forall i :: 0 <= i < n ==> from < spans[i].from <= spans[i].to <= |text|)
    && (forall i :: 0 < i < n ==> spans[i - 1].to < spans[i].from)
    && (forall i :: 0 <= i < n ==> text[spans[i].from..spans[i].to] == Printed(args[i].value, ind))
  }

  lemma StatementsStay(text: string, more: string, spans: seq<Span>, args: seq<Item>, n: nat, ind: nat, from: nat)
    requires StatementsOk(text, spans, args, n, ind, from)
    ensures StatementsOk(text + more, spans, args, n, ind, from)
  {
    hide Printed;
    forall i | 0 <= i < n ensures (text + more)[spans[i].from..spans[i].to] == text[spans[i].from..spans[i].to] {}
  }

  lemma OneMoreStatement(text: string, spans: seq<Span>, args: seq<Item>, n: nat, ind: nat, from: nat,
                         statement: string)
    requires n < |args| && StatementsOk(text, spans, args, n, ind, from)
    requires statement == Printed(args[n].value, ind)
    ensures
      var line := text + "\n" + Spaces(ind);
      StatementsOk(line + statement, spans + [Span(|line|, |line + statement|)], args, n + 1, ind, from)
  {
    hide Printed;
    var line := text + "\n" + Spaces(ind);
    StatementsStay(text, "\n" + Spaces(ind) + statement, spans, args, n, ind, from);
    assert line + statement == text + ("\n" + Spaces(ind) + statement);
    assert (line + statement)[|line|..] == statement;
  }

  lemma {:induction false} StatementsFrom(args: seq<Item>, n: nat, ind: nat, base: Out, out: Out)
    requires n <= |args| && From(base, out)
    ensures
      var r := EmitStatements(args, n, ind, out);
      From(base, r.0) && StatementsOk(r.0.text, r.1, args, n, ind, |out.text|)
    decreases args, n
  {
    PutFrom(base);
    hide From, Emit, Spaces, Printed;
    if n > 0 {
      StatementsFrom(args, n - 1, ind, base, out);
      var before := EmitStatements(args, n - 1, ind, out);
      var line := before.0.Put("\n").Put(Spaces(ind));
      EmitFrom(args[n - 1].value, ind, base, line);
      EmitAppends(args[n - 1].value, ind, line);
      OneMoreStatement(before.0.text, before.1, args, n - 1, ind, |out.text|, Printed(args[n - 1].value, ind));
    }
  }

  lemma BlockRecordOk(e: Expr, ind: nat, from: nat, text: string, spans: seq<Span>, more: string)
    requires e.Call? && StatementsOk(text, spans, e.args, |e.args|, ind + 1, from + 1)
    requires text[from..from + 1] == "{" && more != ""
    ensures RecordOk(text + more, Record(e, ind, [Span(from, from + 1)] + spans))
  {
    hide Printed;
    StatementsStay(text, more, spans, e.args, |e.args|, ind + 1, from + 1);
    assert (text + more)[from..from + 1] == text[from..from + 1];
  }

  lemma {:induction false} BlockFrom(e: Expr, ind: nat, base: Out, out: Out)
    requires e.Call? && FormOf(e.function_, e.args) == Block && From(base, out) && RecordsOk(out)
    ensures From(base, EmitCall(e, ind, out))
    decreases e.args, |e.args| + 1
  {
    var start := out.Put("{");
    BraceOk(out);
    PutFrom(base);
    EmitBlock(e, ind, out);
    hide *;
    StatementsFrom(e.args, |e.args|, ind + 1, base, start);
    StatementsFrom(e.args, |e.args|, ind + 1, start, start);
    var inner := EmitStatements(e.args, |e.args|, ind + 1, start);
    CloseBlock(e, ind, base, out, inner.0, inner.1);
  }

  lemma CloseBlock(e: Expr, ind: nat, base: Out, out: Out, inner: Out, spans: seq<Span>)
    requires e.Call? && From(base, inner) && From(out.Put("{"), inner)
    requires StatementsOk(inner.text, spans, e.args, |e.args|, ind + 1, |out.text| + 1)
    ensures
      var closed := inner.Put("\n").Put(Spaces(ind)).Put("}");
      From(base, closed.(records := closed.records + [Record(e, ind, [Span(|out.text|, |out.text| + 1)] + spans)]))
  {
    var closed := inner.Put("\n").Put(Spaces(ind)).Put("}");
    var more := "\n" + Spaces(ind) + "}";
    PutThrice(inner, "\n", Spaces(ind), "}");
    BraceHolds(out, inner);
    assert |more| > 0;
    PutFrom(base);
    hide *;
    BlockRecordOk(e, ind, |out.text|, inner.text, spans, more);
    AddRecord(base, closed, Record(e, ind, [Span(|out.text|, |out.text| + 1)] + spans));
  }

  lemma EmitBlock(e: Expr, ind: nat, out: Out)
    requires e.Call? && FormOf(e.function_, e.args) == Block
    ensures
      var inner := EmitStatements(e.args, |e.args|, ind + 1, out.Put("{"));
      var closed := inner.0.Put("\n").Put(Spaces(ind)).Put("}");
      EmitCall(e, ind, out) ==
        closed.(records := closed.records + [Record(e, ind, [Span(|out.text|, |out.text| + 1)] + inner.1)])
  {
  }

  lemma BraceOk(out: Out)
    requires RecordsOk(out)
    ensures
      var start := out.Put("{");
      From(start, start) && |start.text| == |out.text| + 1 && start.text[|out.text|..|out.text| + 1] == "{"
  {
    RecordsStay(out, "{");
  }

  lemma RecordsStay(out: Out, t: string)
    requires RecordsOk(out)
    ensures RecordsOk(out.Put(t))
  {
    forall r | r in out.records ensures RecordOk(out.text + t, r) {
      RecordStays(out.text, t, r);
    }
  }

  lemma PutThrice(out: Out, s: string, t: string, u: string)
    ensures out.Put(s).Put(t).Put(u).text == out.text + (s + t + u)
  {
  }

  lemma BraceHolds(out: Out, inner: Out)
    requires From(out.Put("{"), inner)
    ensures |out.text| < |inner.text| && inner.text[|out.text|..|out.text| + 1] == "{"
  {
    assert out.Put("{").text[|out.text|] == '{';
  }

  lemma AddRecord(base: Out, out: Out, r: Record)
    requires From(base, out) && RecordOk(out.text, r)
    ensures From(base, out.(records := out.records + [r]))
  {
    hide RecordOk;
  }

  // ----- What the builder guarantees -----

  /** The first range ends before the second one starts. */
  predicate Before(r: Srcref, s: Srcref) {
    r.endLine < s.startLine || (r.endLine == s.startLine && r.endPosition < s.startPosition)
  }

  lemma RangesInOrder(text: string, a: nat, b: nat, c: nat, d: nat)
    requires a <= b < c <= d <= |text|
    ensures Before(RangeOf(text, a, b), RangeOf(text, c, d))
  {
    var gap := text[b..c];
    assert text[..c] == text[..b] + gap;
    LineOfConcat(text[..b], gap);
    if '\n' in gap {
      BreakCounts(gap);
    }
  }

  lemma {:induction false} BreakCounts(s: string)
    requires '\n' in s
    ensures Line(s) > 0
  {
    if s[|s| - 1] != '\n' {
      assert s == s[..|s| - 1] + [s[|s| - 1]];
      BreakCounts(s[..|s| - 1]);
    }
  }

  /** The ranges of one block: the `{`, and then for every statement, in order and without
      overlap, a range that cuts exactly what the statement prints. */
  ghost predicate BlockRanges(lines: seq<string>, block: Expr, indent: nat, srcrefs: seq<Srcref>) {
    && block.Call? && |srcrefs| == |block.args| + 1
    && Cut(lines, srcrefs[0]) == "{"
    && (forall i :: 0 <= i < |block.args| ==> Cut(lines, srcrefs[i + 1]) == Printed(block.args[i].value, indent + 1))
    && (forall i :: 0 <= i < |block.args| ==> Before(srcrefs[i], srcrefs[i + 1]))
  }

  ghost predicate SrcrefsMatch(text: string, spans: seq<Span>, srcrefs: seq<Srcref>) {
    && |srcrefs| == |spans|
    && (forall i :: 0 <= i < |spans| ==>
          spans[i].from <= spans[i].to <= |text| && srcrefs[i] == RangeOf(text, spans[i].from, spans[i].to))
  }

  lemma RecordGivesRanges(text: string, r: Record, srcrefs: seq<Srcref>)
    requires RecordOk(text, r) && SrcrefsMatch(text, r.spans, srcrefs)
    ensures BlockRanges(SplitByLines(text), r.block, r.indent, srcrefs)
  {
    hide Cut, RangeOf, SplitByLines, Printed;
    forall i | 0 <= i < |r.spans|
      ensures Cut(SplitByLines(text), srcrefs[i]) == text[r.spans[i].from..r.spans[i].to]
    {
      CutIsExact(text, r.spans[i].from, r.spans[i].to);
    }
    forall i | 0 <= i < |r.block.args| ensures Before(srcrefs[i], srcrefs[i + 1]) {
      RangesInOrder(text, r.spans[i].from, r.spans[i].to, r.spans[i + 1].from, r.spans[i + 1].to);
    }
  }

  lemma PrintedRecordsOk(e: Expr, ind: nat)
    ensures RecordsOk(Emit(e, ind, EMPTY))
  {
    assert From(EMPTY, EMPTY);
    EmitFrom(e, ind, EMPTY, EMPTY);
  }
}
