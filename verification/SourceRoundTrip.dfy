/** The printed text stands for the printed object. */
module SourceRoundTrip {
  import opened Wrappers
  import opened StringUtil
  import opened TextBuilder
  import opened SourceReader
  import opened SourceGrammar
  import opened PrintedTexts
  import opened SourceReaderLaws

  // ----- Objects that are printed as the call that makes them -----

  const ZERO: Expr := Vector("numeric(0)", ["0"])

  function Singles(empty: Token, elements: seq<Token>): seq<Expr> {
    seq(|elements|, i requires 0 <= i < |elements| => Vector(empty, [elements[i]]))
  }

  function SingleStrings(strings: seq<Expr>): seq<Expr> {
    seq(|strings|, i requires 0 <= i < |strings| => StringVector([strings[i]]))
  }

  /** The source that evaluates to the object: a call of `list`, `c` and so on for a vector, the
      definition for a closure. Language objects and single constants are their own source. */
  function SourceOf(e: Expr): Expr {
    match e
    case PairList(items) => Call(Symbol("pairlist"), items)
    case Closure(formals, body, generated) => Apply("function", [formals, BodyOf(body, generated)])
    case Vector(empty, elements) =>
      if |elements| == 1 then e
      else if elements != [] then Apply("c", Singles(empty, elements))
      else if empty == "integer(0)" then Apply("integer", [ZERO])
      else if empty == "numeric(0)" then Apply("numeric", [ZERO])
      else if empty == "complex(0)" then Apply("complex", [ZERO])
      else e
    case RawVector(bytes) =>
      if bytes == [] then Apply("raw", [ZERO])
      else if |bytes| == 1 then Apply("as.raw", Singles("numeric(0)", bytes))
      else Apply("as.raw", [Apply("c", Singles("numeric(0)", bytes))])
    case StringVector(strings) =>
      if strings == [] then Apply("character", [ZERO])
      else if |strings| == 1 then e
      else Apply("c", SingleStrings(strings))
    case GenericVector(isExpression, members) => Call(Symbol(if isExpression then "expression" else "list"), members)
    case _ => e
  }

  predicate IsConstructor(name: string) {
    name in {"pairlist", "list", "expression", "c", "as.raw", "raw", "integer", "numeric", "complex", "character"}
  }

  predicate StartsLower(name: string) { name != "" && 'a' <= name[0] <= 'z' }

  lemma NoOperatorName(name: string)
    requires StartsLower(name)
    ensures name !in UNARY_OPERATORS && name !in BINARY_OPERATORS && !IsBinaryOperator(name)
  {
    assert forall op <- BINARY_OPERATORS :: !StartsLower(op);
  }

  lemma NoReservedName(name: string)
    requires StartsLower(name) && !IsKeyword(name)
    ensures name !in RESERVED_WORDS
  {
  }

  lemma LowerWordIsPlain(name: string, args: seq<Item>)
    requires StartsLower(name) && !IsKeyword(name)
    ensures FormOf(Symbol(name), args) == Plain
  {
    NoOperatorName(name);
    hide IsBinaryOperator, UNARY_OPERATORS, BINARY_OPERATORS;
    assert name[0] !in "{([";
  }

  lemma ConstructorIsWord(name: string)
    requires IsConstructor(name)
    ensures StartsLower(name) && !IsKeyword(name)
    ensures forall i: nat | i < |name| :: ValidAt(name, i)
  {
  }

  lemma IsPlain(name: string, args: seq<Item>)
    requires IsConstructor(name)
    ensures FormOf(Symbol(name), args) == Plain && Quoted(name) == name
  {
    hide FormOf, IsConstructor, IsKeyword, StartsLower, RESERVED_WORDS;
    ConstructorIsWord(name);
    LowerWordIsPlain(name, args);
    NoReservedName(name);
  }

  /** A call of one of R's constructors. */
  lemma ConstructorText(name: string, items: seq<Item>, ind: nat)
    requires IsConstructor(name)
    ensures Printed(Call(Symbol(name), items), ind) ==
              name + "(" + Joined(ItemTexts(items, ind), 0, |items|, ", ") + ")"
  {
    IsPlain(name, items);
    PlainText(Call(Symbol(name), items), ind);
    SymbolText(Symbol(name), ind);
    hide Printed, Joined, FormOf, Quoted;
  }

  lemma PairListEmits(items: seq<Item>, ind: nat)
    ensures Printed(PairList(items), ind) ==
              EmitItems(items, 0, |items|, ind, EMPTY.Put("pairlist" + "(")).text + ")"
  {
    hide EmitItems;
    assert "pairlist(" == "pairlist" + "(";
  }

  lemma VectorEmits(isExpression: bool, members: seq<Item>, ind: nat)
    ensures Printed(GenericVector(isExpression, members), ind) ==
              EmitItems(members, 0, |members|, ind,
                        EMPTY.Put((if isExpression then "expression" else "list") + "(")).text + ")"
  {
    hide EmitItems;
    assert "expression(" == "expression" + "(" && "list(" == "list" + "(";
  }

  lemma ListsPrint(e: Expr, ind: nat)
    requires e.PairList? || e.GenericVector?
    ensures Printed(e, ind) == Printed(SourceOf(e), ind)
  {
    var items := if e.PairList? then e.items else e.members;
    var name := if e.PairList? then "pairlist" else if e.isExpression then "expression" else "list";
    assert SourceOf(e) == Call(Symbol(name), items);
    hide EmitItems, Joined, Printed, SourceOf, Out.Put;
    if e.PairList? { PairListEmits(items, ind); } else { VectorEmits(e.isExpression, items, ind); }
    ConstructorText(name, items, ind);
    ItemsText(items, 0, |items|, ind, EMPTY.Put(name + "("));
    PutsFirst(name + "(");
  }

  lemma ClosuresPrint(e: Expr, ind: nat)
    requires e.Closure?
    ensures Printed(e, ind) == Printed(SourceOf(e), ind)
  {
    hide EmitHeader, BodyOf;
    CallPrints(SourceOf(e), ind);
  }

  lemma SingleText(empty: Token, t: Token, ind: nat)
    ensures Printed(Vector(empty, [t]), ind) == t
  {
    assert Elements([t], 1) == "" + "" + t;
  }

  lemma {:induction false} ElementsText(tokens: seq<Token>, texts: seq<string>, n: nat)
    requires n <= |tokens| == |texts| && forall i | 0 <= i < |tokens| :: texts[i] == tokens[i]
    ensures Elements(tokens, n) == Joined(texts, 0, n, ", ")
  {
    if n > 0 {
      ElementsText(tokens, texts, n - 1);
      JoinedBack(texts, 0, n, ", ");
      hide Joined;
    }
  }

  lemma SinglesText(empty: Token, elements: seq<Token>, ind: nat)
    ensures Elements(elements, |elements|) ==
              Joined(ItemTexts(Unnamed(Singles(empty, elements)), ind), 0, |elements|, ", ")
  {
    hide Printed, Elements, Joined;
    var items := Unnamed(Singles(empty, elements));
    forall i | 0 <= i < |elements| ensures ItemTexts(items, ind)[i] == elements[i] {
      SingleText(empty, elements[i], ind);
      assert items[i] == Item("", Vector(empty, [elements[i]]));
      assert ItemText(items[i], ind) == "" + elements[i];
    }
    ElementsText(elements, ItemTexts(items, ind), |elements|);
  }

  lemma VectorsPrint(e: Expr, ind: nat)
    requires e.Vector? && |e.elements| > 1
    ensures Printed(e, ind) == Printed(SourceOf(e), ind)
  {
    SinglesText(e.empty, e.elements, ind);
    ConstructorText("c", Unnamed(Singles(e.empty, e.elements)), ind);
    hide Elements, Joined, ItemTexts;
    assert Printed(e, ind) == "" + "c(" + Elements(e.elements, |e.elements|) + ")";
    assert "" + "c(" == "c" + "(";
  }

  lemma OneArgument(name: string, arg: Expr, ind: nat)
    requires IsConstructor(name)
    ensures Printed(Apply(name, [arg]), ind) == name + "(" + Printed(arg, ind) + ")"
  {
    hide Printed, IsConstructor;
    ConstructorText(name, Unnamed([arg]), ind);
    var texts := ItemTexts(Unnamed([arg]), ind);
    assert texts[0] == Printed(arg, ind) by { assert "" + Printed(arg, ind) == Printed(arg, ind); }
    assert Joined(texts, 0, 1, ", ") == texts[0] + "" + "";
  }

  lemma BytesPrint(e: Expr, ind: nat)
    requires e.RawVector?
    ensures Printed(e, ind) == Printed(SourceOf(e), ind)
  {
    if e.bytes == [] {
      OneArgument("raw", ZERO, ind);
      SingleText("numeric(0)", "0", ind);
      hide Apply;
      assert "raw" + "(" + "0" + ")" == "raw(0)";
      assert Printed(e, ind) == "raw(0)";
    } else if |e.bytes| == 1 {
      OneByteText(e, ind);
    } else {
      BytesText(e, ind);
    }
  }

  lemma OneByteText(e: Expr, ind: nat)
    requires e.RawVector? && |e.bytes| == 1
    ensures Printed(e, ind) == Printed(SourceOf(e), ind)
  {
    var byte := Vector("numeric(0)", [e.bytes[0]]);
    assert Singles("numeric(0)", e.bytes) == [byte];
    assert SourceOf(e) == Apply("as.raw", [byte]);
    OneArgument("as.raw", byte, ind);
    SingleText("numeric(0)", e.bytes[0], ind);
    hide SourceOf, Apply;
    assert Elements(e.bytes, 1) == "" + "" + e.bytes[0];
    hide Elements;
    assert Printed(e, ind) == "" + "as.raw(" + e.bytes[0] + ")";
    assert "" + "as.raw(" == "as.raw" + "(";
  }

  lemma BytesText(e: Expr, ind: nat)
    requires e.RawVector? && |e.bytes| > 1
    ensures Printed(e, ind) == Printed(SourceOf(e), ind)
  {
    var bytes := Apply("c", Singles("numeric(0)", e.bytes));
    assert SourceOf(e) == Apply("as.raw", [bytes]);
    SinglesText("numeric(0)", e.bytes, ind);
    ConstructorText("c", Unnamed(Singles("numeric(0)", e.bytes)), ind);
    OneArgument("as.raw", bytes, ind);
    hide Elements, Joined, ItemTexts, SourceOf;
    var text := Elements(e.bytes, |e.bytes|);
    assert Printed(e, ind) == "" + "as.raw(" + "c(" + text + ")" + ")";
    hide Printed;
    NestedTexts(text);
  }

  lemma NestedTexts(text: string)
    ensures "" + "as.raw(" + "c(" + text + ")" + ")" == "as.raw" + "(" + ("c" + "(" + text + ")") + ")"
  {
    assert "as.raw(" == "as.raw" + "(" && "c(" == "c" + "(";
  }

  lemma OneStringText(t: Expr, ind: nat)
    ensures Printed(StringVector([t]), ind) == Printed(t, ind)
  {
    assert EmitAll([t], 0, ind, EMPTY).Put(Separator(0)) == EMPTY;
    assert EmitAll([t], 1, ind, EMPTY) == Emit(t, ind, EMPTY);
  }

  lemma OneMoreString(strings: seq<Expr>, n: nat, ind: nat, out: Out)
    requires n < |strings|
    ensures EmitAll(strings, n + 1, ind, out).text ==
              EmitAll(strings, n, ind, out).text + (Separator(n) + Printed(strings[n], ind))
  {
    hide Emit, Printed;
    PutsMore(EmitAll(strings, n, ind, out), Separator(n), strings[n], ind);
  }

  lemma NoStrings(strings: seq<Expr>, texts: seq<string>, ind: nat, out: Out)
    ensures EmitAll(strings, 0, ind, out).text == out.text + Joined(texts, 0, 0, ", ")
  {
    assert out.text + "" == out.text;
  }

  lemma {:induction false} StringsText(strings: seq<Expr>, texts: seq<string>, n: nat, ind: nat, out: Out)
    requires n <= |strings| == |texts|
    requires forall i | 0 <= i < |strings| :: texts[i] == Printed(strings[i], ind)
    ensures EmitAll(strings, n, ind, out).text == out.text + Joined(texts, 0, n, ", ")
  {
    hide EmitAll, Printed, Joined;
    if n == 0 {
      NoStrings(strings, texts, ind, out);
    } else {
      StringsText(strings, texts, n - 1, ind, out);
      OneMoreString(strings, n - 1, ind, out);
      JoinedBack(texts, 0, n, ", ");
      Regroup("", Joined(texts, 0, n - 1, ", "), Separator(n - 1), texts[n - 1]);
      Regroup(out.text, Joined(texts, 0, n - 1, ", "), Separator(n - 1), texts[n - 1]);
    }
  }

  lemma StringsPrint(e: Expr, ind: nat)
    requires e.StringVector? && |e.strings| > 1
    ensures Printed(e, ind) == Printed(SourceOf(e), ind)
  {
    var items := Unnamed(SingleStrings(e.strings));
    var texts := ItemTexts(items, ind);
    assert SourceOf(e) == Call(Symbol("c"), items);
    assert Printed(e, ind) == EmitAll(e.strings, |e.strings|, ind, EMPTY.Put("c(")).Put(")").text;
    hide Printed, SourceOf, EmitAll;
    forall i | 0 <= i < |texts| ensures texts[i] == Printed(e.strings[i], ind) {
      OneStringText(e.strings[i], ind);
      assert items[i] == Item("", StringVector([e.strings[i]]));
      assert ItemText(items[i], ind) == "" + Printed(StringVector([e.strings[i]]), ind);
    }
    hide ItemTexts, Joined;
    StringsText(e.strings, texts, |texts|, ind, EMPTY.Put("c("));
    ConstructorText("c", items, ind);
    PutsFirst("c(");
    assert "c(" == "c" + "(";
  }

  lemma EmptyText(name: string, ind: nat)
    requires IsConstructor(name)
    ensures Printed(Apply(name, [ZERO]), ind) == name + "(0)"
  {
    hide IsConstructor, Apply;
    OneArgument(name, ZERO, ind);
    SingleText("numeric(0)", "0", ind);
    hide Printed;
    assert name + "(" + "0" + ")" == name + "(0)" by { assert "(" + "0" + ")" == "(0)"; }
  }

  lemma EmptyPrints(e: Expr, ind: nat)
    requires (e.Vector? && e.elements == []) || (e.StringVector? && e.strings == [])
    ensures Printed(e, ind) == Printed(SourceOf(e), ind)
  {
    EmptyText("integer", ind);
    EmptyText("numeric", ind);
    EmptyText("complex", ind);
    EmptyText("character", ind);
    hide Apply;
    assert "integer" + "(0)" == "integer(0)" && "numeric" + "(0)" == "numeric(0)";
    assert "complex" + "(0)" == "complex(0)" && "character" + "(0)" == "character(0)";
    assert Printed(e, ind) == "" + if e.Vector? then e.empty else "character(0)";
  }

  /** An object is printed as the source it comes from. */
  lemma SourcePrints(e: Expr, ind: nat)
    ensures Printed(e, ind) == Printed(SourceOf(e), ind)
  {
    hide Printed, SourceOf;
    match e {
      case PairList(_) => ListsPrint(e, ind);
      case GenericVector(_, _) => ListsPrint(e, ind);
      case Closure(_, _, _) => ClosuresPrint(e, ind);
      case Vector(_, elements) =>
        if |elements| > 1 {
          VectorsPrint(e, ind);
        } else if elements == [] {
          EmptyPrints(e, ind);
        } else {
          IsItself(e);
        }
      case RawVector(_) => BytesPrint(e, ind);
      case StringVector(strings) =>
        if |strings| > 1 {
          StringsPrint(e, ind);
        } else if strings == [] {
          EmptyPrints(e, ind);
        } else {
          IsItself(e);
        }
      case _ => IsItself(e);
    }
  }

  lemma IsItself(e: Expr)
    requires !e.PairList? && !e.Closure? && !e.RawVector? && !e.GenericVector?
    requires (e.Vector? ==> |e.elements| == 1) && (e.StringVector? ==> |e.strings| == 1)
    ensures SourceOf(e) == e
  {
  }

  // ----- The results -----

  /** Whatever is printed is read back as its source, at any indentation and in front of a comma, a
      closing bracket, a line break or the end; nothing behind it is read. */
  lemma PrintedReadsBack(e: Expr, rest: string, ind: nat)
    requires IsSource(SourceOf(e)) && (rest == "" || rest[0] in "),]\n")
    ensures ReadExpr(Printed(e, ind) + rest, STATEMENT, ind) == Some(Reading(SourceOf(e), rest))
  {
    hide IsSource, SourceOf, Printed, ReadExpr, Follows, NextPrecedence;
    SourcePrints(e, ind);
    AllAreTight(SourceOf(e));
    CloseFollows(SourceOf(e), rest);
    PartReads(SourceOf(e), rest, STATEMENT, ind);
  }

  /** A whole printed text stands for the source of what was printed. */
  lemma PrintedMeansSource(e: Expr)
    requires IsSource(SourceOf(e))
    ensures Read(Printed(e, 0)) == Some(SourceOf(e))
  {
    hide IsSource, Printed, ReadExpr, SourceOf;
    PrintedReadsBack(e, "", 0);
    assert Printed(e, 0) + "" == Printed(e, 0);
  }

  /** A name on its own is read back exactly unless it is empty or looks like a number, as `.5` does. */
  lemma NamesReadBack(name: string)
    ensures Read(Printed(Symbol(name), 0)) == Some(Symbol(name)) <==> IsName(name)
  {
    SymbolText(Symbol(name), 0);
    if IsName(name) {
      PrintedMeansSource(Symbol(name));
    } else if name == "" {
      assert Quoted(name) == "";
    } else {
      NumberIsConstant(name);
    }
  }

  lemma NumberIsBare(name: string)
    requires name != "" && !IsName(name)
    ensures Quoted(name) == name && '\n' !in name && Constant(name).Some? && Constant(name).value.Vector?
    ensures name[0] == '.' && IsWord(name)
  {
    forall i: nat | i < |name| ensures ValidAt(name, i) { assert IsWordChar(name[i]); }
    assert !IsWordChar('\n');
  }

  lemma NumberIsConstant(name: string)
    requires name != "" && !IsName(name)
    ensures Read(Quoted(name)) != Some(Symbol(name))
  {
    NumberIsBare(name);
    var e := Vector("numeric(0)", [name]);
    assert IsSource(e) && SourceOf(e) == e;
    SingleText("numeric(0)", name, 0);
    hide Quoted, IsSource, Read, Printed, IsName, SourceOf;
    PrintedMeansSource(e);
  }

  lemma OperationText(op: string, a: Expr, b: Expr, ind: nat)
    requires op == "+" || op == "*"
    ensures Printed(Apply(op, [a, b]), ind) == Printed(a, ind) + (" " + op + " ") + Printed(b, ind)
  {
    var e := Apply(op, [a, b]);
    assert FormOf(e.function_, e.args) == Binary(op) && !IsTight(op);
    SpacedText(e, ind, op);
    hide Printed, FormOf;
  }

  /** The printer adds no parentheses: a sum as a factor is printed like a sum of products, which is
      what its text stands for. */
  lemma NoParenthesesAdded(a: Expr, b: Expr, c: Expr)
    ensures Printed(Apply("*", [Apply("+", [a, b]), c]), 0) == Printed(Apply("+", [a, Apply("*", [b, c])]), 0)
    ensures Apply("*", [Apply("+", [a, b]), c]) != Apply("+", [a, Apply("*", [b, c])])
  {
    hide Printed, Apply;
    OperationText("*", Apply("+", [a, b]), c, 0);
    OperationText("+", a, b, 0);
    OperationText("+", a, Apply("*", [b, c]), 0);
    OperationText("*", b, c, 0);
    OperandsJoin(Printed(a, 0), " + ", Printed(b, 0), " * ", Printed(c, 0));
    DifferentNames("*", "+", [Apply("+", [a, b]), c], [a, Apply("*", [b, c])]);
  }

  lemma OperandsJoin(a: string, plus: string, b: string, times: string, c: string)
    ensures a + plus + b + times + c == a + plus + (b + times + c)
  {
  }

  lemma DifferentNames(f: string, g: string, a: seq<Expr>, b: seq<Expr>)
    requires f != g
    ensures Apply(f, a) != Apply(g, b)
  {
  }
}
