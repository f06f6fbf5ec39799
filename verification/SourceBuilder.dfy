/** The builder itself: it appends to a text and keeps line and column counters as it goes. */
module SourceBuilder {
  import opened StringUtil
  import opened SourceText
  import opened TextBuilder
  import opened SourceBlocks
  import opened SourceMap
  import opened Wrappers
  import SourceReader
  import SourceGrammar
  import SourceRoundTrip

  lemma MatchStays(text: string, more: string, spans: seq<Span>, srcrefs: seq<Srcref>)
    requires SrcrefsMatch(text, spans, srcrefs)
    ensures SrcrefsMatch(text + more, spans, srcrefs)
  {
    forall i | 0 <= i < |spans|
      ensures RangeOf(text + more, spans[i].from, spans[i].to) == RangeOf(text, spans[i].from, spans[i].to)
    {
      assert (text + more)[..spans[i].from] == text[..spans[i].from];
      assert (text + more)[..spans[i].to] == text[..spans[i].to];
    }
  }

  /** The srcrefs kept so far fit the records of the text. */
  ghost predicate AllMatch(out: Out, newSrcrefs: seq<(Expr, seq<Srcref>)>) {
    && |newSrcrefs| == |out.records|
    && (forall k :: 0 <= k < |newSrcrefs| ==>
          newSrcrefs[k].0 == out.records[k].block && SrcrefsMatch(out.text, out.records[k].spans, newSrcrefs[k].1))
  }

  lemma AllMatchPut(out: Out, t: string, newSrcrefs: seq<(Expr, seq<Srcref>)>)
    requires AllMatch(out, newSrcrefs)
    ensures AllMatch(out.Put(t), newSrcrefs)
  {
    forall k | 0 <= k < |newSrcrefs| ensures SrcrefsMatch(out.text + t, out.records[k].spans, newSrcrefs[k].1) {
      MatchStays(out.text, t, out.records[k].spans, newSrcrefs[k].1);
    }
  }

  lemma LineAfterBreak(text: string, spaces: Token)
    ensures Line(text + "\n" + spaces) == Line(text) + 1 && Column(text + "\n" + spaces) == |spaces|
  {
    LineOfConcat(text + "\n", spaces);
    assert (text + "\n")[..|text|] == text;
  }

  lemma BraceMatches(before: string, r: Srcref)
    requires r == Srcref(Line(before), Column(before), Line(before), Column(before) + 1)
    ensures SrcrefsMatch(before + "{", [Span(|before|, |before| + 1)], [r])
  {
    LineOfConcat(before, "{");
    assert (before + "{")[..|before|] == before;
    assert (before + "{")[..|before| + 1] == before + "{";
  }

  lemma OneMoreSrcref(earlier: string, line: string, text: string, spans: seq<Span>, srcrefs: seq<Srcref>, r: Srcref)
    requires earlier <= line <= text && SrcrefsMatch(earlier, spans, srcrefs)
    requires r == Srcref(Line(line), Column(line), Line(text), Column(text))
    ensures SrcrefsMatch(text, spans + [Span(|line|, |text|)], srcrefs + [r])
  {
    MatchStays(earlier, text[|earlier|..], spans, srcrefs);
    assert earlier + text[|earlier|..] == text;
    assert text[..|line|] == line && text[..|text|] == text;
  }

  lemma OneMoreBlock(out: Out, newSrcrefs: seq<(Expr, seq<Srcref>)>, r: Record, srcrefs: seq<Srcref>)
    requires AllMatch(out, newSrcrefs) && SrcrefsMatch(out.text, r.spans, srcrefs)
    ensures AllMatch(out.(records := out.records + [r]), newSrcrefs + [(r.block, srcrefs)])
  {
    hide SrcrefsMatch;
  }

  lemma MatchStaysPut(out: Out, s: string, t: string, u: string, spans: seq<Span>, srcrefs: seq<Srcref>)
    requires SrcrefsMatch(out.text, spans, srcrefs)
    ensures SrcrefsMatch(out.Put(s).Put(t).Put(u).text, spans, srcrefs)
  {
    PutThrice(out, s, t, u);
    MatchStays(out.text, s + t + u, spans, srcrefs);
  }

  lemma StatementsStep(args: seq<Item>, i: nat, ind: nat, out: Out, brace: Span)
    requires i < |args|
    ensures
      var before, after := EmitStatements(args, i, ind, out), EmitStatements(args, i + 1, ind, out);
      var line := before.0.Put("\n").Put(Spaces(ind));
      && after.0 == Emit(args[i].value, ind, line)
      && [brace] + after.1 == [brace] + before.1 + [Span(|line.text|, |after.0.text|)]
  {
    hide Emit, Spaces;
  }

  lemma BlockIsEmitted(e: Expr, ind: nat, start: Out, braced: Out, inner: Out, out: Out, spans: seq<Span>)
    requires e.Call? && FormOf(e.function_, e.args) == Block && braced == start.Put("{")
    requires
      var r := EmitStatements(e.args, |e.args|, ind + 1, braced);
      inner == r.0 && spans == [Span(|start.text|, |start.text| + 1)] + r.1
    requires
      var closed := inner.Put("\n").Put(Spaces(ind)).Put("}");
      out == closed.(records := closed.records + [Record(e, ind, spans)])
    ensures out == EmitCall(e, ind, start)
  {
    hide *;
    EmitBlock(e, ind, start);
  }

  class Builder {
    var text: string
    var indent: nat
    var currentLine: nat
    var currentLineStart: nat
    var newSrcrefs: seq<(Expr, seq<Srcref>)>
    ghost var records: seq<Record>

    ghost function Now(): Out
      reads `text, `records
    {
      Out(text, records)
    }

    /** The counters describe the end of the text, and every srcref the place it was taken at. */
    ghost predicate Valid()
      reads `text, `currentLine, `currentLineStart, `newSrcrefs, `records
    {
      && currentLine == Line(text) && currentLineStart == |text| - Column(text)
      && AllMatch(Now(), newSrcrefs)
    }

    constructor ()
      ensures Valid() && indent == 0 && Now() == EMPTY
    {
      text, indent, currentLine, currentLineStart, newSrcrefs, records := "", 0, 0, 0, [], [];
    }

    method Write(t: Token)
      requires Valid()
      modifies `text
      ensures Valid() && Now() == old(Now()).Put(t)
    {
      AllMatchPut(Now(), t, newSrcrefs);
      LineOfConcat(text, t);
      text := text + t;
    }

    method NewLine()
      requires Valid()
      modifies `text, `currentLine, `currentLineStart
      ensures Valid() && Now() == old(Now()).Put("\n").Put(Spaces(indent))
    {
      ghost var before := Now();
      text := text + "\n";
      currentLineStart := |text|;
      for i := 0 to indent
        invariant text == before.text + "\n" + Spaces(i)
        modifies `text
      {
        assert before.text + "\n" + Spaces(i) + "  " == before.text + "\n" + Spaces(i + 1);
        text := text + "  ";
      }
      currentLine := currentLine + 1;
      AllMatchPut(before, "\n", newSrcrefs);
      AllMatchPut(before.Put("\n"), Spaces(indent), newSrcrefs);
      LineAfterBreak(before.text, Spaces(indent));
    }

    /** A srcref of everything built so far. */
    method GetWholeSrcref() returns (r: Srcref)
      requires Valid()
      ensures r == RangeOf(text, 0, |text|)
    {
      assert text[..0] == "" && text[..|text|] == text;
      var p := CurrentPosition();
      r := Srcref(0, 0, currentLine, p);
    }

    method CurrentPosition() returns (p: nat)
      requires Valid()
      ensures p == Column(text)
    {
      p := |text| - currentLineStart;
    }

    /** A srcref that starts here; its end is not known yet. */
    method StartSrcref() returns (r: Srcref)
      requires Valid()
      ensures r == Srcref(Line(text), Column(text), -1, -1)
    {
      var p := CurrentPosition();
      r := Srcref(currentLine, p, -1, -1);
    }

    method EndSrcref(r: Srcref) returns (ended: Srcref)
      requires Valid()
      ensures ended == r.(endLine := Line(text), endPosition := Column(text))
    {
      var p := CurrentPosition();
      ended := r.(endLine := currentLine, endPosition := p);
    }

    /** Ends a block and keeps its srcrefs. */
    method CloseBlock(e: Expr, ghost spans: seq<Span>, srcrefs: seq<Srcref>)
      requires Valid() && SrcrefsMatch(text, spans, srcrefs)
      modifies this
      ensures Valid() && indent == old(indent)
      ensures
        var closed := old(Now()).Put("\n").Put(Spaces(indent)).Put("}");
        Now() == closed.(records := closed.records + [Record(e, indent, spans)])
    {
      ghost var before := Now();
      ghost var r := Record(e, indent, spans);
      MatchStaysPut(before, "\n", Spaces(indent), "}", spans, srcrefs);
      hide AllMatch, SrcrefsMatch, Spaces, Out.Put, Line, Column;
      NewLine();
      Write("}");
      OneMoreBlock(Now(), newSrcrefs, r, srcrefs);
      newSrcrefs := newSrcrefs + [(e, srcrefs)];
      records := records + [r];
    }

    method Build(e: Expr)
      requires Valid()
      modifies this
      ensures Valid() && indent == old(indent) && Now() == Emit(e, old(indent), old(Now()))
      decreases e, 2
    {
      hide Now, EmitCall, EmitItems, EmitAll, EmitHeader, Valid, Escaped, Quoted, Elements, PrimitiveArgs;
      match e {
        case Null => Write("NULL");
        case Symbol(name) => WriteQuoted(name);
        case PairList(items) =>
          Write("pairlist(");
          BuildItems(items, 0);
          Write(")");
        case Closure(formals, body, generated) =>
          BuildFunctionHeader(formals);
          Write(" ");
          if generated && body.Call? && |body.args| == 1 {
            Build(body.args[0].value);
          } else {
            Build(body);
          }
        case Primitive(name, arity) => BuildPrimitive(name, arity);
        case Replaced(t) => Write(t);
        case Call(_, _) => BuildCall(e);
        case NaString => Write("NA_character_");
        case Chars(content) =>
          var t := Escape(content, QUOTES);
          EscapedIsOneLine(content, QUOTES);
          Write("\"");
          Write(t);
          Write("\"");
        case Vector(_, _) => BuildVector(e);
        case RawVector(_) => BuildVector(e);
        case StringVector(_) => BuildList(e);
        case GenericVector(_, _) => BuildList(e);
        case FixedWord(word) => Write(word);
      }
    }

    /** The vectors whose elements are formatted words. */
    method BuildVector(e: Expr)
      requires Valid() && (e.Vector? || e.RawVector?)
      modifies `text
      ensures Valid() && Now() == Emit(e, indent, old(Now()))
    {
      hide Now, Valid, Elements, Out.Put;
      match e {
        case Vector(empty, elements) =>
          if elements == [] {
            Write(empty);
          } else {
            if |elements| > 1 { Write("c("); }
            WriteElements(elements);
            if |elements| > 1 { Write(")"); }
          }
        case RawVector(bytes) =>
          if bytes == [] {
            Write("raw(0)");
          } else {
            Write("as.raw(");
            if |bytes| > 1 { Write("c("); }
            WriteElements(bytes);
            if |bytes| > 1 { Write(")"); }
            Write(")");
          }
      }
    }

    /** The vectors whose elements are R objects. */
    method BuildList(e: Expr)
      requires Valid() && (e.StringVector? || e.GenericVector?)
      modifies this
      ensures Valid() && indent == old(indent) && Now() == Emit(e, old(indent), old(Now()))
      decreases e, 1
    {
      hide Now, Valid, EmitItems, EmitAll, Out.Put;
      match e {
        case StringVector(strings) =>
          if strings == [] {
            Write("character(0)");
          } else {
            if |strings| > 1 { Write("c("); }
            BuildAll(strings);
            if |strings| > 1 { Write(")"); }
          }
        case GenericVector(isExpression, members) =>
          if isExpression { Write("expression("); } else { Write("list("); }
          BuildItems(members, 0);
          Write(")");
      }
    }

    method WriteQuoted(name: string)
      requires Valid()
      modifies `text
      ensures Valid() && Now() == old(Now()).Put(Quoted(name))
    {
      QuotedIsOneLine(name);
      var t := QuoteIfNeeded(name);
      Write(t);
    }

    method WriteElements(tokens: seq<Token>)
      requires Valid()
      modifies `text
      ensures Valid() && Now() == old(Now()).Put(Elements(tokens, |tokens|))
    {
      hide Valid;
      ghost var before := Now();
      for i := 0 to |tokens|
        invariant Valid() && Now() == before.Put(Elements(tokens, i))
      {
        if i > 0 { Write(", "); }
        Write(tokens[i]);
        assert Now().text == before.text + (Elements(tokens, i) + Separator(i) + tokens[i]);
      }
    }

    method WritePrimitiveArgs(arity: nat)
      requires Valid()
      modifies `text
      ensures Valid() && Now() == old(Now()).Put(PrimitiveArgs(arity))
    {
      hide Valid, Digits;
      ghost var before := Now();
      for i := 1 to arity + 1
        invariant Valid() && Now() == before.Put(PrimitiveArgs(i - 1))
      {
        if i > 1 { Write(", "); }
        Write("e");
        Write(Digits(i));
        assert Now().text == before.text + (PrimitiveArgs(i - 1) + (if i > 1 then ", e" else "e") + Digits(i));
      }
    }

    method BuildPrimitive(name: Token, arity: int)
      requires Valid()
      modifies `text
      ensures Valid() && Now() == Emit(Primitive(name, arity), indent, old(Now()))
    {
      hide Now, Valid, PrimitiveArgs, Out.Put;
      Write("function(");
      if arity == -1 {
        Write("...");
      } else {
        WritePrimitiveArgs(if arity < 0 then 0 else arity);
      }
      Write(")");
      Write(" ");
      Write(".Primitive(\"");
      Write(name);
      Write("\")");
    }

    method BuildItems(items: seq<Item>, from: nat)
      requires Valid() && from <= |items|
      modifies this
      ensures Valid() && indent == old(indent) && Now() == EmitItems(items, from, |items|, old(indent), old(Now()))
      decreases items, |items| + 1
    {
      hide Now, Valid, Emit, Quoted;
      ghost var before := Now();
      for i := from to |items|
        invariant Valid() && indent == old(indent) && Now() == EmitItems(items, from, i, old(indent), before)
      {
        if i > from { Write(", "); }
        ghost var separated := Now();
        assert separated == EmitItems(items, from, i, old(indent), before).Put(Separator(i - from));
        if items[i].name != "" {
          WriteQuoted(items[i].name);
          Write(" = ");
        }
        assert Now() == separated.Put(NamePrefix(items[i].name));
        Build(items[i].value);
      }
    }

    method BuildAll(exprs: seq<Expr>)
      requires Valid()
      modifies this
      ensures Valid() && indent == old(indent) && Now() == EmitAll(exprs, |exprs|, old(indent), old(Now()))
      decreases exprs, |exprs| + 1
    {
      hide Now, Valid, Emit;
      ghost var before := Now();
      for i := 0 to |exprs|
        invariant Valid() && indent == old(indent) && Now() == EmitAll(exprs, i, old(indent), before)
      {
        if i > 0 { Write(", "); }
        assert Now() == EmitAll(exprs, i, old(indent), before).Put(Separator(i));
        Build(exprs[i]);
      }
    }

    method BuildFunctionHeader(formals: Expr)
      requires Valid()
      modifies this
      ensures Valid() && indent == old(indent) && Now() == EmitHeader(formals, old(indent), old(Now()))
      decreases formals, 2
    {
      hide Now, Valid, Emit, Quoted;
      Write("function(");
      if formals.PairList? {
        ghost var before := Now();
        var items := formals.items;
        for i := 0 to |items|
          invariant Valid() && indent == old(indent) && Now() == EmitFormals(items, i, old(indent), before)
        {
          if i > 0 { Write(", "); }
          assert Now() == EmitFormals(items, i, old(indent), before).Put(Separator(i));
          WriteQuoted(FormalName(items, i));
          if !IsMissing(items[i].value) {
            Write(" = ");
            Build(items[i].value);
          }
        }
      }
      Write(")");
    }

    method BuildCall(e: Expr)
      requires e.Call? && Valid()
      modifies this
      ensures Valid() && indent == old(indent) && Now() == EmitCall(e, old(indent), old(Now()))
      decreases e, 1
    {
      hide Now, Valid, Emit, EmitItems, EmitHeader, EmitStatements, Out.Put;
      var args := e.args;
      match FormOf(e.function_, args) {
        case Block => BuildBlock(e);
        case Paren =>
          Write("(");
          Build(args[0].value);
          Write(")");
        case FunctionDef =>
          BuildFunctionHeader(args[0].value);
          Write(" ");
          Build(args[1].value);
        case Unary(op) =>
          Write(op);
          Build(args[0].value);
        case Binary(op) =>
          Build(args[0].value);
          if op == "::" || op == ":::" || op == "$" {
            Write(op);
          } else {
            Write(" ");
            Write(op);
            Write(" ");
          }
          Build(args[1].value);
        case Index(op) =>
          Build(args[0].value);
          Write(op);
          BuildItems(args, 1);
          if op == "[" { Write("]"); } else { Write("]]"); }
        case Word(op) => Write(op);
        case Plain =>
          Build(e.function_);
          Write("(");
          BuildItems(args, 0);
          Write(")");
        case If => BuildControl(e);
        case For => BuildControl(e);
        case While => BuildLoop(e);
        case Repeat => BuildLoop(e);
      }
    }

    /** The keyword forms: `if` and `for`, and the other loops. */
    method BuildControl(e: Expr)
      requires e.Call? && Valid()
      requires var form := FormOf(e.function_, e.args); form.If? || form.For?
      modifies this
      ensures Valid() && indent == old(indent) && Now() == EmitCall(e, old(indent), old(Now()))
      decreases e, 0
    {
      hide Now, Valid, Emit, EmitItems, EmitHeader, EmitStatements, Out.Put;
      var args := e.args;
      match FormOf(e.function_, args) {
        case If =>
          Write("if (");
          Build(args[0].value);
          Write(") ");
          Build(args[1].value);
          if |args| > 2 {
            Write(" else ");
            Build(args[2].value);
          }
        case For =>
          Write("for (");
          Build(args[0].value);
          Write(" in ");
          Build(args[1].value);
          Write(") ");
          Build(args[2].value);
      }
    }

    method BuildLoop(e: Expr)
      requires e.Call? && Valid()
      requires var form := FormOf(e.function_, e.args); form.While? || form.Repeat?
      modifies this
      ensures Valid() && indent == old(indent) && Now() == EmitCall(e, old(indent), old(Now()))
      decreases e, 0
    {
      hide Now, Valid, Emit, EmitItems, EmitHeader, EmitStatements, Out.Put;
      var args := e.args;
      match FormOf(e.function_, args) {
        case While =>
          Write("while (");
          Build(args[0].value);
          Write(") ");
          Build(args[1].value);
        case Repeat =>
          Write("repeat ");
          Build(args[0].value);
      }
    }

    method BuildStatement(e: Expr, ghost spans: seq<Span>, srcrefs: seq<Srcref>)
      returns (ghost moreSpans: seq<Span>, more: seq<Srcref>)
      requires Valid() && SrcrefsMatch(text, spans, srcrefs)
      modifies this
      ensures Valid() && indent == old(indent) && SrcrefsMatch(text, moreSpans, more)
      ensures
        var line := old(Now()).Put("\n").Put(Spaces(indent));
        Now() == Emit(e, indent, line) && moreSpans == spans + [Span(|line.text|, |text|)]
      decreases e, 3
    {
      hide Valid, Emit, SrcrefsMatch, Spaces, Line, Column;
      ghost var earlier := text;
      NewLine();
      var srcref := StartSrcref();
      ghost var line := Now();
      EmitAppends(e, indent, line);
      Build(e);
      srcref := EndSrcref(srcref);
      OneMoreSrcref(earlier, line.text, text, spans, srcrefs, srcref);
      more := srcrefs + [srcref];
      moreSpans := spans + [Span(|line.text|, |text|)];
    }

    method BuildBlock(e: Expr)
      requires e.Call? && FormOf(e.function_, e.args) == Block && Valid()
      modifies this
      ensures Valid() && indent == old(indent) && Now() == EmitCall(e, old(indent), old(Now()))
      decreases e.args, |e.args| + 2
    {
      hide Now, Valid, Emit, EmitCall, EmitStatements, FormOf, SrcrefsMatch, Spaces, Line, Column, Out.Put;
      ghost var start := Now();
      ghost var spans;
      var srcrefs;
      spans, srcrefs := OpenBlock();
      ghost var braced := Now();
      spans, srcrefs := BuildStatements(e.args, spans, srcrefs);
      ghost var inner := Now();
      CloseBlock(e, spans, srcrefs);
      BlockIsEmitted(e, indent, start, braced, inner, Now(), spans);
    }

    method OpenBlock() returns (ghost spans: seq<Span>, srcrefs: seq<Srcref>)
      requires Valid()
      modifies `text
      ensures Valid() && Now() == old(Now()).Put("{") && SrcrefsMatch(text, spans, srcrefs)
      ensures spans == [Span(|old(Now()).text|, |old(Now()).text| + 1)]
    {
      hide Valid, SrcrefsMatch, Line, Column;
      ghost var before := text;
      spans := [Span(|text|, |text| + 1)];
      var brace := StartSrcref();
      srcrefs := [brace.(endLine := brace.startLine, endPosition := brace.startPosition + 1)];
      Write("{");
      BraceMatches(before, srcrefs[0]);
    }

    /** The statements of a block, one level deeper. */
    method BuildStatements(args: seq<Item>, ghost brace: seq<Span>, braceSrcref: seq<Srcref>)
      returns (ghost spans: seq<Span>, srcrefs: seq<Srcref>)
      requires Valid() && |brace| == 1 && SrcrefsMatch(text, brace, braceSrcref)
      modifies this
      ensures Valid() && indent == old(indent) && SrcrefsMatch(text, spans, srcrefs)
      ensures
        var inner := EmitStatements(args, |args|, indent + 1, old(Now()));
        Now() == inner.0 && spans == brace + inner.1
      decreases args, |args| + 1
    {
      hide Valid, Emit, SrcrefsMatch, Spaces, Line, Column, Out.Put;
      ghost var start := Now();
      spans, srcrefs := brace, braceSrcref;
      assert brace == [brace[0]] && brace + [] == brace;
      indent := indent + 1;
      for i := 0 to |args|
        invariant Valid() && indent == old(indent) + 1
        invariant Now() == EmitStatements(args, i, indent, start).0
        invariant spans == brace + EmitStatements(args, i, indent, start).1
        invariant SrcrefsMatch(text, spans, srcrefs)
      {
        spans, srcrefs := BuildStatement(args[i].value, spans, srcrefs);
        StatementsStep(args, i, indent, start, brace[0]);
      }
      indent := indent - 1;
    }
  }

  /** What the IDE is given for one object: its text, the srcref of the whole text, and the srcrefs of
      every block printed in it, innermost blocks first. The text reads back as the source of the
      object, each range cuts exactly the text of its statement, and a block's ranges are in order. */
  method PrintWithSrcrefs(e: Expr) returns (text: string, srcrefs: seq<(Expr, seq<Srcref>)>, whole: Srcref)
    ensures text == Printed(e, 0)
    ensures var source := SourceRoundTrip.SourceOf(e);
            SourceGrammar.IsSource(source) ==> SourceReader.Read(text) == Some(source)
    ensures Cut(SplitByLines(text), whole) == text
    ensures |srcrefs| == |Blocks(e)|
    ensures
      var blocks := Emit(e, 0, EMPTY).records;
      && |srcrefs| == |blocks|
      && (forall k :: 0 <= k < |blocks| ==>
            && srcrefs[k].0 == blocks[k].block == Blocks(e)[k]
            && BlockRanges(SplitByLines(text), srcrefs[k].0, blocks[k].indent, srcrefs[k].1))
  {
    hide Emit, Blocks, BlockRanges, SrcrefsMatch, RecordOk, SplitByLines, Cut;
    hide SourceRoundTrip.SourceOf, SourceGrammar.IsSource, SourceReader.Read;
    if SourceGrammar.IsSource(SourceRoundTrip.SourceOf(e)) { SourceRoundTrip.PrintedMeansSource(e); }
    var builder := new Builder();
    builder.Build(e);
    text, srcrefs := builder.text, builder.newSrcrefs;
    whole := builder.GetWholeSrcref();
    CutIsExact(text, 0, |text|);
    assert text[0..|text|] == text;
    ghost var blocks := Emit(e, 0, EMPTY).records;
    PrintedRecordsOk(e, 0);
    EveryBlockIsRecorded(e, 0);
    forall k | 0 <= k < |blocks|
      ensures BlockRanges(SplitByLines(text), blocks[k].block, blocks[k].indent, srcrefs[k].1)
    {
      assert blocks[k] in blocks;
      RecordGivesRanges(text, blocks[k], srcrefs[k].1);
    }
    assert forall k :: 0 <= k < |blocks| ==> blocks[k].block == BlocksOf(blocks)[k];
  }
}
