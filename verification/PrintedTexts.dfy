/** The text of every form, in terms of the texts of its parts. */
module PrintedTexts {
  import opened Wrappers
  import opened StringUtil
  import opened TextBuilder
  import opened SourceReader
  import opened SourceGrammar

  // ----- What the forms print -----

  lemma CallPrints(e: Expr, ind: nat)
    requires e.Call?
    ensures Printed(e, ind) == EmitCall(e, ind, EMPTY).text
  {
    hide EmitCall;
  }

  function Value(e: Expr, i: nat, ind: nat): string
    requires e.Call? && i < |e.args|
  {
    Printed(e.args[i].value, ind)
  }

  /** A text, an expression behind it and another text behind that. */
  lemma PutsBehind(out: Out, e: Expr, ind: nat, more: string)
    ensures Emit(e, ind, out).Put(more).text == out.text + Printed(e, ind) + more
    ensures Emit(e, ind, out).text == out.text + Printed(e, ind)
  {
    EmitAppends(e, ind, out);
    hide Emit, Printed;
  }

  lemma PutsTwo(out: Out, e: Expr, f: Expr, ind: nat, between: string)
    ensures Emit(f, ind, Emit(e, ind, out).Put(between)).text ==
              out.text + Printed(e, ind) + between + Printed(f, ind)
  {
    hide Emit, Printed;
    PutsBehind(out, e, ind, between);
    PutsBehind(Emit(e, ind, out).Put(between), f, ind, "");
  }

  lemma IfText(e: Expr, ind: nat)
    requires e.Call? && FormOf(e.function_, e.args) == If
    ensures Printed(e, ind) == "if (" + Value(e, 0, ind) + ") " + Value(e, 1, ind) +
                               (if |e.args| == 2 then "" else " else " + Value(e, 2, ind))
  {
    hide Emit, Printed, Out.Put;
    CallPrints(e, ind);
    if |e.args| == 2 { ShortIfText(e, ind); } else { LongIfText(e, ind); }
  }

  lemma ShortIfText(e: Expr, ind: nat)
    requires e.Call? && FormOf(e.function_, e.args) == If && |e.args| == 2
    ensures EmitCall(e, ind, EMPTY).text == "if (" + Value(e, 0, ind) + ") " + Value(e, 1, ind) + ""
  {
    hide Emit, Printed, Out.Put;
    PutsFirst("if (");
    PutsTwo(EMPTY.Put("if ("), e.args[0].value, e.args[1].value, ind, ") ");
    assert EmitCall(e, ind, EMPTY) ==
      Emit(e.args[1].value, ind, Emit(e.args[0].value, ind, EMPTY.Put("if (")).Put(") "));
    var text := "if (" + Value(e, 0, ind) + ") " + Value(e, 1, ind);
    assert text + "" == text;
  }

  lemma LongIfText(e: Expr, ind: nat)
    requires e.Call? && FormOf(e.function_, e.args) == If && |e.args| == 3
    ensures EmitCall(e, ind, EMPTY).text ==
              "if (" + Value(e, 0, ind) + ") " + Value(e, 1, ind) + (" else " + Value(e, 2, ind))
  {
    hide Emit, Printed, Out.Put;
    PutsFirst("if (");
    PutsTwo(EMPTY.Put("if ("), e.args[0].value, e.args[1].value, ind, ") ");
    var then_ := Emit(e.args[1].value, ind, Emit(e.args[0].value, ind, EMPTY.Put("if (")).Put(") "));
    assert EmitCall(e, ind, EMPTY) == Emit(e.args[2].value, ind, then_.Put(" else "));
    PutsMore(then_, " else ", e.args[2].value, ind);
  }

  lemma PutsFirst(t: string)
    ensures EMPTY.Put(t).text == t
  {
  }

  lemma PutsMore(out: Out, t: string, e: Expr, ind: nat)
    ensures Emit(e, ind, out.Put(t)).text == out.text + (t + Printed(e, ind))
  {
    hide Emit, Printed;
    PutsBehind(out.Put(t), e, ind, "");
  }

  lemma ForText(e: Expr, ind: nat)
    requires e.Call? && FormOf(e.function_, e.args) == For
    ensures Printed(e, ind) == "for (" + Value(e, 0, ind) + " in " + Value(e, 1, ind) + ") " + Value(e, 2, ind)
  {
    CallPrints(e, ind);
    var a := EMPTY.Put("for (");
    var c := Emit(e.args[1].value, ind, Emit(e.args[0].value, ind, a).Put(" in "));
    PutsTwo(a, e.args[0].value, e.args[1].value, ind, " in ");
    hide Emit, Printed;
    assert EMPTY.Put("for (").text == "for (";
    PutsBehind(c.Put(") "), e.args[2].value, ind, "");
  }

  lemma WhileText(e: Expr, ind: nat)
    requires e.Call? && FormOf(e.function_, e.args) == While
    ensures Printed(e, ind) == "while (" + Value(e, 0, ind) + ") " + Value(e, 1, ind)
  {
    CallPrints(e, ind);
    PutsTwo(EMPTY.Put("while ("), e.args[0].value, e.args[1].value, ind, ") ");
    hide Emit, Printed;
    assert EMPTY.Put("while (").text == "while (";
  }

  lemma RepeatText(e: Expr, ind: nat)
    requires e.Call? && FormOf(e.function_, e.args) == Repeat
    ensures Printed(e, ind) == "repeat " + Value(e, 0, ind)
  {
    CallPrints(e, ind);
    PutsBehind(EMPTY.Put("repeat "), e.args[0].value, ind, "");
    hide Emit, Printed;
    assert EMPTY.Put("repeat ").text == "repeat ";
  }

  lemma ParenText(e: Expr, ind: nat)
    requires e.Call? && FormOf(e.function_, e.args) == Paren
    ensures Printed(e, ind) == "(" + Value(e, 0, ind) + ")"
  {
    CallPrints(e, ind);
    PutsBehind(EMPTY.Put("("), e.args[0].value, ind, ")");
    hide Emit, Printed;
    assert EMPTY.Put("(").text == "(";
  }

  lemma UnaryText(e: Expr, ind: nat, op: Token)
    requires e.Call? && FormOf(e.function_, e.args) == Unary(op)
    ensures Printed(e, ind) == op + Value(e, 0, ind)
  {
    CallPrints(e, ind);
    PutsBehind(EMPTY.Put(op), e.args[0].value, ind, "");
    hide Emit, Printed;
    assert EMPTY.Put(op).text == op;
  }

  lemma TightText(e: Expr, ind: nat, op: Token)
    requires e.Call? && FormOf(e.function_, e.args) == Binary(op) && IsTight(op)
    ensures Printed(e, ind) == Value(e, 0, ind) + op + Value(e, 1, ind)
  {
    CallPrints(e, ind);
    PutsTwo(EMPTY, e.args[0].value, e.args[1].value, ind, op);
    hide Emit, Printed, FormOf;
    assert "" + Value(e, 0, ind) == Value(e, 0, ind);
  }

  lemma PutsThree(out: Out, a: string, b: string, c: string)
    ensures out.Put(a).Put(b).Put(c).text == out.text + (a + b + c)
  {
  }

  lemma SpacedText(e: Expr, ind: nat, op: Token)
    requires e.Call? && FormOf(e.function_, e.args) == Binary(op) && !IsTight(op)
    ensures Printed(e, ind) == Value(e, 0, ind) + (" " + op + " ") + Value(e, 1, ind)
  {
    assert |e.args| == 2;
    hide Emit, Printed, FormOf, Value, Out.Put;
    CallPrints(e, ind);
    var left := Emit(e.args[0].value, ind, EMPTY);
    PutsBehind(EMPTY, e.args[0].value, ind, "");
    PutsBehind(left.Put(" ").Put(op).Put(" "), e.args[1].value, ind, "");
    PutsThree(left, " ", op, " ");
    assert "" + Printed(e.args[0].value, ind) == Printed(e.args[0].value, ind);
    ValuesAre(e, ind);
  }

  lemma ValuesAre(e: Expr, ind: nat)
    requires e.Call? && |e.args| == 2
    ensures Value(e, 0, ind) == Printed(e.args[0].value, ind) && Value(e, 1, ind) == Printed(e.args[1].value, ind)
  {
    hide Printed;
  }

  lemma WordText(e: Expr, ind: nat, op: Token)
    requires e.Call? && FormOf(e.function_, e.args) == Word(op)
    ensures Printed(e, ind) == op
  {
    CallPrints(e, ind);
    assert EMPTY.Put(op).text == op;
  }

  // ----- Lists -----

  /** The pieces from i up to n, with a text between them. */
  function Joined(pieces: seq<string>, i: nat, n: nat, between: string): string
    requires n <= |pieces|
    decreases n - i
  {
    if n <= i then "" else
    pieces[i] + (if i + 1 < n then between else "") + Joined(pieces, i + 1, n, between)
  }

  lemma {:induction false} JoinedBack(pieces: seq<string>, i: nat, n: nat, between: string)
    requires i < n <= |pieces|
    ensures Joined(pieces, i, n, between) ==
              Joined(pieces, i, n - 1, between) + (if n - 1 > i then between else "") + pieces[n - 1]
    decreases n - i
  {
    if i + 1 < n { JoinedBack(pieces, i + 1, n, between); }
  }

  function ItemText(item: Item, ind: nat): string { NamePrefix(item.name) + Printed(item.value, ind) }

  function ItemTexts(items: seq<Item>, ind: nat): (texts: seq<string>)
    ensures |texts| == |items|
  {
    seq(|items|, i requires 0 <= i < |items| => ItemText(items[i], ind))
  }

  lemma {:induction false} ItemsText(items: seq<Item>, from: nat, n: nat, ind: nat, out: Out)
    requires n <= |items|
    ensures EmitItems(items, from, n, ind, out).text == out.text + Joined(ItemTexts(items, ind), from, n, ", ")
  {
    hide Emit, Printed, NamePrefix;
    if n > from {
      ItemsText(items, from, n - 1, ind, out);
      JoinedBack(ItemTexts(items, ind), from, n, ", ");
      var before := EmitItems(items, from, n - 1, ind, out);
      var named := before.Put(Separator(n - 1 - from)).Put(NamePrefix(items[n - 1].name));
      PutsBehind(named, items[n - 1].value, ind, "");
      hide Joined, EmitItems;
      assert named.text == before.text + Separator(n - 1 - from) + NamePrefix(items[n - 1].name);
    }
  }

  lemma PlainText(e: Expr, ind: nat)
    requires e.Call? && FormOf(e.function_, e.args) == Plain
    ensures Printed(e, ind) ==
              Printed(e.function_, ind) + "(" + Joined(ItemTexts(e.args, ind), 0, |e.args|, ", ") + ")"
  {
    CallPrints(e, ind);
    PutsBehind(EMPTY, e.function_, ind, "(");
    ItemsText(e.args, 0, |e.args|, ind, Emit(e.function_, ind, EMPTY).Put("("));
    hide Emit, Printed, EmitItems, Joined;
    assert "" + Printed(e.function_, ind) == Printed(e.function_, ind);
  }

  lemma IndexText(e: Expr, ind: nat, op: Token)
    requires e.Call? && FormOf(e.function_, e.args) == Index(op)
    ensures Printed(e, ind) ==
              Value(e, 0, ind) + op + Joined(ItemTexts(e.args, ind), 1, |e.args|, ", ") +
              (if op == "[" then "]" else "]]")
  {
    CallPrints(e, ind);
    PutsBehind(EMPTY, e.args[0].value, ind, op);
    ItemsText(e.args, 1, |e.args|, ind, Emit(e.args[0].value, ind, EMPTY).Put(op));
    hide Emit, Printed, EmitItems, Joined;
    assert "" + Value(e, 0, ind) == Value(e, 0, ind);
  }

  function StatementTexts(args: seq<Item>, ind: nat): (texts: seq<string>)
    ensures |texts| == |args|
  {
    seq(|args|, i requires 0 <= i < |args| => NewLine(ind) + Printed(args[i].value, ind))
  }

  lemma {:induction false} SpacesAre(n: nat)
    ensures Spaces(n) == seq(2 * n, _ => ' ')
  {
    if n > 0 { SpacesAre(n - 1); }
  }

  lemma OneMoreStatement(args: seq<Item>, n: nat, ind: nat, out: Out)
    requires n < |args|
    ensures EmitStatements(args, n + 1, ind, out).0.text ==
              EmitStatements(args, n, ind, out).0.text + (NewLine(ind) + Printed(args[n].value, ind))
  {
    hide Emit, Printed, Spaces, NewLine;
    var before := EmitStatements(args, n, ind, out).0;
    PutsBehind(before.Put("\n").Put(Spaces(ind)), args[n].value, ind, "");
    LineIs(ind);
    hide EmitStatements;
    var t, line, value := before.text, Spaces(ind), Printed(args[n].value, ind);
    assert t + "\n" + line + value == t + (("\n" + line) + value);
  }

  lemma JoinedStatement(args: seq<Item>, n: nat, ind: nat, start: string)
    requires n < |args|
    ensures start + Joined(StatementTexts(args, ind), 0, n + 1, "") ==
              start + Joined(StatementTexts(args, ind), 0, n, "") + (NewLine(ind) + Printed(args[n].value, ind))
  {
    hide Printed, NewLine, Joined;
    var pieces := StatementTexts(args, ind);
    assert pieces[n] == NewLine(ind) + Printed(args[n].value, ind);
    hide StatementTexts;
    JoinedBack(pieces, 0, n + 1, "");
    var joined := Joined(pieces, 0, n, "");
    assert start + (joined + "" + pieces[n]) == start + joined + pieces[n];
  }

  lemma NoStatements(args: seq<Item>, ind: nat, out: Out)
    ensures EmitStatements(args, 0, ind, out).0.text == out.text + Joined(StatementTexts(args, ind), 0, 0, "")
  {
    assert out.text + "" == out.text;
  }

  lemma {:induction false} StatementsText(args: seq<Item>, n: nat, ind: nat, out: Out)
    requires n <= |args|
    ensures EmitStatements(args, n, ind, out).0.text == out.text + Joined(StatementTexts(args, ind), 0, n, "")
  {
    hide EmitStatements, Printed, Joined, StatementTexts, NewLine;
    if n == 0 {
      NoStatements(args, ind, out);
    } else {
      StatementsText(args, n - 1, ind, out);
      OneMoreStatement(args, n - 1, ind, out);
      JoinedStatement(args, n - 1, ind, out.text);
    }
  }

  lemma BlockText(e: Expr, ind: nat)
    requires e.Call? && FormOf(e.function_, e.args) == Block
    ensures Printed(e, ind) ==
              "{" + Joined(StatementTexts(e.args, ind + 1), 0, |e.args|, "") + (NewLine(ind) + "}")
  {
    hide Emit, Printed, EmitStatements, Joined, Spaces, NewLine, StatementTexts, Out.Put;
    CallPrints(e, ind);
    StatementsText(e.args, |e.args|, ind + 1, EMPTY.Put("{"));
    PutsFirst("{");
    var inner := EmitStatements(e.args, |e.args|, ind + 1, EMPTY.Put("{")).0;
    PutsThree(inner, "\n", Spaces(ind), "}");
    LineIs(ind);
    assert EmitCall(e, ind, EMPTY).text == inner.Put("\n").Put(Spaces(ind)).Put("}").text;
  }

  lemma LineIs(ind: nat)
    ensures "\n" + Spaces(ind) == NewLine(ind)
  {
    SpacesAre(ind);
    hide Spaces;
  }

  function FormalText(item: Item, ind: nat): string {
    Quoted(item.name) + (if IsMissing(item.value) then "" else " = " + Printed(item.value, ind))
  }

  function FormalTexts(items: seq<Item>, ind: nat): (texts: seq<string>)
    ensures |texts| == |items|
  {
    seq(|items|, i requires 0 <= i < |items| => FormalText(items[i], ind))
  }

  lemma FormalEmits(items: seq<Item>, n: nat, ind: nat, out: Out)
    requires n < |items| && items[n].name != ""
    ensures var named := EmitFormals(items, n, ind, out).Put(Separator(n)).Put(Quoted(items[n].name));
            EmitFormals(items, n + 1, ind, out) ==
              if IsMissing(items[n].value) then named else Emit(items[n].value, ind, named.Put(" = "))
  {
    assert FormalName(items, n) == items[n].name;
    hide Emit, Quoted, FormalName, Out.Put;
  }

  lemma FormalTextsJoin(before: string, sep: string, name: string, value: string)
    ensures before + sep + name + " = " + value == before + sep + (name + (" = " + value))
    ensures before + sep + name == before + sep + (name + "")
  {
  }

  lemma OneMoreFormal(items: seq<Item>, n: nat, ind: nat, out: Out)
    requires n < |items| && items[n].name != ""
    ensures EmitFormals(items, n + 1, ind, out).text ==
              EmitFormals(items, n, ind, out).text + Separator(n) + FormalText(items[n], ind)
  {
    hide Emit, Printed, Quoted, EmitFormals, IsMissing, Separator;
    FormalEmits(items, n, ind, out);
    var before, name := EmitFormals(items, n, ind, out), Quoted(items[n].name);
    PutsBehind(before.Put(Separator(n)).Put(name).Put(" = "), items[n].value, ind, "");
    FormalTextsJoin(before.text, Separator(n), name, Printed(items[n].value, ind));
  }

  lemma JoinedOneMore(items: seq<Item>, n: nat, ind: nat, start: string)
    requires n < |items|
    ensures start + Joined(FormalTexts(items, ind), 0, n + 1, ", ") ==
              start + Joined(FormalTexts(items, ind), 0, n, ", ") + Separator(n) + FormalText(items[n], ind)
  {
    hide FormalText, Joined;
    var pieces := FormalTexts(items, ind);
    assert pieces[n] == FormalText(items[n], ind);
    hide FormalTexts;
    JoinedBack(pieces, 0, n + 1, ", ");
    var joined, sep := Joined(pieces, 0, n, ", "), Separator(n);
    assert start + (joined + sep + pieces[n]) == start + joined + sep + pieces[n];
  }

  lemma NoFormals(items: seq<Item>, ind: nat, out: Out)
    ensures EmitFormals(items, 0, ind, out).text == out.text + Joined(FormalTexts(items, ind), 0, 0, ", ")
  {
    assert out.text + "" == out.text;
  }

  lemma {:induction false} FormalsText(items: seq<Item>, n: nat, ind: nat, out: Out)
    requires n <= |items| && forall i | 0 <= i < |items| :: items[i].name != ""
    ensures EmitFormals(items, n, ind, out).text == out.text + Joined(FormalTexts(items, ind), 0, n, ", ")
  {
    hide FormalText, FormalTexts, EmitFormals, Joined, Separator;
    if n == 0 {
      NoFormals(items, ind, out);
    } else {
      FormalsText(items, n - 1, ind, out);
      OneMoreFormal(items, n - 1, ind, out);
      JoinedOneMore(items, n - 1, ind, out.text);
    }
  }

  function FormalsPart(formals: Expr, ind: nat): string {
    if formals.PairList? then Joined(FormalTexts(formals.items, ind), 0, |formals.items|, ", ") else ""
  }

  lemma HeaderText(formals: Expr, ind: nat)
    requires AreSourceFormals(formals)
    ensures EmitHeader(formals, ind, EMPTY).text == "function(" + FormalsPart(formals, ind) + ")"
  {
    if formals.PairList? { FormalsText(formals.items, |formals.items|, ind, EMPTY.Put("function(")); }
    hide EmitFormals, Joined, Printed;
    assert EMPTY.Put("function(").text == "function(";
  }

  lemma FunctionText(e: Expr, ind: nat)
    requires e.Call? && FormOf(e.function_, e.args) == FunctionDef && AreSourceFormals(e.args[0].value)
    ensures Printed(e, ind) == "function(" + FormalsPart(e.args[0].value, ind) + ")" + " " + Value(e, 1, ind)
  {
    CallPrints(e, ind);
    HeaderText(e.args[0].value, ind);
    hide Emit, Printed, EmitHeader, FormalsPart;
    PutsBehind(EmitHeader(e.args[0].value, ind, EMPTY).Put(" "), e.args[1].value, ind, "");
  }
}
