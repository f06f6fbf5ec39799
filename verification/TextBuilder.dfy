/**
 The printer that turns an R object into source text and records, for every `{` block, the
 range of lines and columns of each statement.
 */
module TextBuilder {
  import opened StringUtil

  /** Text without line breaks, such as a formatted number. */
  type Token = s: string | '\n' !in s witness ""

  datatype Item = Item(name: string, value: Expr)

  /** R objects as the printer sees them. An argument without a name has the name "". */
  datatype Expr =
    | Null
    | Symbol(name: string)
    | PairList(items: seq<Item>)
    // generated: the body carries the generated-block flag
    | Closure(formals: Expr, body: Expr, generated: bool)
    | Primitive(primitive: Token, arity: int)
    | Replaced(replacement: Token)
    | Call(function_: Expr, args: seq<Item>)
    | NaString
    | Chars(content: string)
    // logical, integer, double and complex vectors: what an empty one prints, and the formatted elements
    | Vector(empty: Token, elements: seq<Token>)
    | RawVector(bytes: seq<Token>)
    | StringVector(strings: seq<Expr>)
    | GenericVector(isExpression: bool, members: seq<Item>)
    // environments, promises, `...`, byte code and other objects that print as a fixed word
    | FixedWord(word: Token)

  // ----- The forms of a call -----

  datatype Form =
    | Block | If | Paren | FunctionDef | Unary(op: Token) | Binary(op: Token) | Index(op: Token) | Word(op: Token)
    | For | While | Repeat | Plain

  const UNARY_OPERATORS: set<string> := {"!", "+", "-"}

  const BINARY_OPERATORS: set<string> := {
    "+", "-", "*", "/", "^", ":", "&", "&&", "|", "||", "<", ">", "<=", ">=", "==", "!=",
    "=", "<-", "->", "<<-", "->>", "::", ":::", "$"
  }

  predicate IsBinaryOperator(s: string) {
    s in BINARY_OPERATORS || (|s| >= 2 && s[0] == '%' && s[|s| - 1] == '%' && '\n' !in s)
  }

  function FormOf(f: Expr, args: seq<Item>): Form {
    var name := if f.Symbol? then f.name else "";
    if name == "{" then Block
    else if name == "if" && 2 <= |args| <= 3 then If
    else if name == "(" && |args| == 1 then Paren
    else if name == "function" && |args| >= 2 then FunctionDef
    else if name in UNARY_OPERATORS && |args| == 1 then Unary(name)
    else if IsBinaryOperator(name) && |args| == 2 then Binary(name)
    else if (name == "[" || name == "[[") && |args| >= 1 then Index(name)
    else if (name == "break" || name == "next") && args == [] then Word(name)
    else if name == "for" && |args| == 3 then For
    else if name == "while" && |args| == 2 then While
    else if name == "repeat" && |args| == 1 then Repeat
    else Plain
  }

  // ----- What is printed, without lines and columns -----

  /** Offsets of a stretch of text; the end is exclusive. */
  datatype Span = Span(from: nat, to: nat)

  /** A printed block: where its `{` and its statements stand in the text. */
  datatype Record = Record(block: Expr, indent: nat, spans: seq<Span>)

  datatype Out = Out(text: string, records: seq<Record>)
  {
    function Put(s: string): Out { this.(text := text + s) }
  }

  const EMPTY := Out("", [])

  function Spaces(n: nat): Token {
    if n == 0 then "" else Spaces(n - 1) + "  "
  }

  function Separator(i: int): Token { if i > 0 then ", " else "" }

  function NamePrefix(name: string): string {
    if name == "" then "" else Quoted(name) + " = "
  }

  /** The name printed for the i-th formal: "." when no formal has a name. */
  function FormalName(items: seq<Item>, i: nat): string
    requires i < |items|
  {
    if exists j: nat | j < |items| :: items[j].name != "" then items[i].name else "."
  }

  predicate IsMissing(e: Expr) { e.Symbol? && e.name == "" }

  function BodyOf(body: Expr, generated: bool): (r: Expr)
    ensures r == body || r < body
  {
    if generated && body.Call? && |body.args| == 1 then body.args[0].value else body
  }

  function Digits(n: nat): Token {
    var d := ["0", "1", "2", "3", "4", "5", "6", "7", "8", "9"][n % 10];
    if n < 10 then d else Digits(n / 10) + d
  }

  /** The formals e1 to en of a primitive. */
  function PrimitiveArgs(n: nat): Token {
    if n == 0 then "" else PrimitiveArgs(n - 1) + (if n > 1 then ", e" else "e") + Digits(n)
  }

  function Elements(tokens: seq<Token>, n: nat): Token
    requires n <= |tokens|
  {
    if n == 0 then "" else Elements(tokens, n - 1) + Separator(n - 1) + tokens[n - 1]
  }

  function Emit(e: Expr, ind: nat, out: Out): Out
    decreases e, 1
  {
    match e
    case Null => out.Put("NULL")
    case Symbol(name) => out.Put(Quoted(name))
    case PairList(items) => EmitItems(items, 0, |items|, ind, out.Put("pairlist(")).Put(")")
    case Closure(formals, body, generated) =>
      Emit(BodyOf(body, generated), ind, EmitHeader(formals, ind, out).Put(" "))
    case Primitive(name, arity) =>
      out.Put("function(").Put(if arity == -1 then "..." else PrimitiveArgs(if arity < 0 then 0 else arity)).Put(")")
         .Put(" ").Put(".Primitive(\"").Put(name).Put("\")")
    case Replaced(t) => out.Put(t)
    case Call(f, args) => EmitCall(e, ind, out)
    case NaString => out.Put("NA_character_")
    case Chars(s) => out.Put("\"").Put(Escaped(s, QUOTES)).Put("\"")
    case Vector(empty, elements) =>
      if elements == [] then out.Put(empty)
      else if |elements| == 1 then out.Put(Elements(elements, 1))
      else out.Put("c(").Put(Elements(elements, |elements|)).Put(")")
    case RawVector(bytes) =>
      if bytes == [] then out.Put("raw(0)")
      else if |bytes| == 1 then out.Put("as.raw(").Put(Elements(bytes, 1)).Put(")")
      else out.Put("as.raw(").Put("c(").Put(Elements(bytes, |bytes|)).Put(")").Put(")")
    case StringVector(strings) =>
      if strings == [] then out.Put("character(0)")
      else if |strings| == 1 then EmitAll(strings, 1, ind, out)
      else EmitAll(strings, |strings|, ind, out.Put("c(")).Put(")")
    case GenericVector(isExpression, members) =>
      EmitItems(members, 0, |members|, ind, out.Put(if isExpression then "expression(" else "list(")).Put(")")
    case FixedWord(word) => out.Put(word)
  }

  function EmitCall(e: Expr, ind: nat, out: Out): Out
    requires e.Call?
    decreases e, 0
  {
    var args := e.args;
    match FormOf(e.function_, args)
    case Block =>
      var inner := EmitStatements(args, |args|, ind + 1, out.Put("{"));
      var closed := inner.0.Put("\n").Put(Spaces(ind)).Put("}");
      closed.(records := closed.records + [Record(e, ind, [Span(|out.text|, |out.text| + 1)] + inner.1)])
    case If =>
      var then_ := Emit(args[1].value, ind, Emit(args[0].value, ind, out.Put("if (")).Put(") "));
      if |args| == 2 then then_ else Emit(args[2].value, ind, then_.Put(" else "))
    case Paren => Emit(args[0].value, ind, out.Put("(")).Put(")")
    case FunctionDef => Emit(args[1].value, ind, EmitHeader(args[0].value, ind, out).Put(" "))
    case Unary(op) => Emit(args[0].value, ind, out.Put(op))
    case Binary(op) =>
      var left := Emit(args[0].value, ind, out);
      var middle := if op == "::" || op == ":::" || op == "$" then left.Put(op) else left.Put(" ").Put(op).Put(" ");
      Emit(args[1].value, ind, middle)
    case Index(op) =>
      EmitItems(args, 1, |args|, ind, Emit(args[0].value, ind, out).Put(op)).Put(if op == "[" then "]" else "]]")
    case Word(op) => out.Put(op)
    case For =>
      var head := Emit(args[1].value, ind, Emit(args[0].value, ind, out.Put("for (")).Put(" in "));
      Emit(args[2].value, ind, head.Put(") "))
    case While => Emit(args[1].value, ind, Emit(args[0].value, ind, out.Put("while (")).Put(") "))
    case Repeat => Emit(args[0].value, ind, out.Put("repeat "))
    case Plain => EmitItems(args, 0, |args|, ind, Emit(e.function_, ind, out).Put("(")).Put(")")
  }

  /** The items from `from` up to n, separated by commas, with their names. */
  function EmitItems(items: seq<Item>, from: nat, n: nat, ind: nat, out: Out): Out
    requires n <= |items|
    decreases items, n
  {
    if n <= from then out else
    Emit(items[n - 1].value, ind,
         EmitItems(items, from, n - 1, ind, out).Put(Separator(n - 1 - from)).Put(NamePrefix(items[n - 1].name)))
  }

  function EmitAll(exprs: seq<Expr>, n: nat, ind: nat, out: Out): Out
    requires n <= |exprs|
    decreases exprs, n
  {
    if n == 0 then out else Emit(exprs[n - 1], ind, EmitAll(exprs, n - 1, ind, out).Put(Separator(n - 1)))
  }

  /** The first n statements of a block, each on its own line, and where they stand. */
  function EmitStatements(args: seq<Item>, n: nat, ind: nat, out: Out): (r: (Out, seq<Span>))
    requires n <= |args|
    ensures |r.1| == n
    decreases args, n
  {
    if n == 0 then (out, []) else
    var before := EmitStatements(args, n - 1, ind, out);
    var line := before.0.Put("\n").Put(Spaces(ind));
    var after := Emit(args[n - 1].value, ind, line);
    (after, before.1 + [Span(|line.text|, |after.text|)])
  }

  function EmitHeader(formals: Expr, ind: nat, out: Out): Out
    decreases formals, 2
  {
    var start := out.Put("function(");
    (if formals.PairList? then EmitFormals(formals.items, |formals.items|, ind, start) else start).Put(")")
  }

  function EmitFormals(items: seq<Item>, n: nat, ind: nat, out: Out): Out
    requires n <= |items|
    decreases items, n
  {
    if n == 0 then out else
    var named := EmitFormals(items, n - 1, ind, out).Put(Separator(n - 1)).Put(Quoted(FormalName(items, n - 1)));
    if IsMissing(items[n - 1].value) then named else Emit(items[n - 1].value, ind, named.Put(" = "))
  }

  /** What the printer emits for an expression at an indentation. */
  function Printed(e: Expr, ind: nat): string {
    Emit(e, ind, EMPTY).text
  }

  // ----- Printing only appends, and what it appends does not depend on what is there -----

  /** The first text is the second one with p before it. */
  predicate Shifted(a: Out, b: Out, p: string) { a.text == p + b.text }

  lemma PutShifted(p: string)
    ensures forall a: Out, b: Out, t {:trigger Shifted(a.Put(t), b.Put(t), p)} ::
      Shifted(a, b, p) ==> Shifted(a.Put(t), b.Put(t), p)
  {
    forall a: Out, b: Out, t | Shifted(a, b, p) ensures Shifted(a.Put(t), b.Put(t), p) {
      assert p + b.text + t == p + (b.text + t);
    }
  }

  lemma {:induction false} EmitShifts(e: Expr, ind: nat, a: Out, b: Out, p: string)
    requires Shifted(a, b, p)
    ensures Shifted(Emit(e, ind, a), Emit(e, ind, b), p)
    decreases e, 1
  {
    PutShifted(p);
    hide Shifted, EmitCall, EmitItems, EmitHeader, EmitAll, Out.Put, Elements, Spaces, PrimitiveArgs, Escaped, Quoted;
    match e {
      case PairList(items) => ItemsShift(items, 0, |items|, ind, a.Put("pairlist("), b.Put("pairlist("), p);
      case Closure(formals, body, generated) =>
        HeaderShifts(formals, ind, a, b, p);
        EmitShifts(BodyOf(body, generated), ind, EmitHeader(formals, ind, a).Put(" "),
                   EmitHeader(formals, ind, b).Put(" "), p);
      case Call(f, args) => CallShifts(e, ind, a, b, p);
      case StringVector(strings) =>
        AllShift(strings, |strings|, ind, a, b, p);
        AllShift(strings, |strings|, ind, a.Put("c("), b.Put("c("), p);
      case GenericVector(isExpression, members) =>
        var head := if isExpression then "expression(" else "list(";
        ItemsShift(members, 0, |members|, ind, a.Put(head), b.Put(head), p);
      case _ =>
    }
  }

  lemma {:induction false} CallShifts(e: Expr, ind: nat, a: Out, b: Out, p: string)
    requires e.Call? && Shifted(a, b, p)
    ensures Shifted(EmitCall(e, ind, a), EmitCall(e, ind, b), p)
    decreases e, 0
  {
    PutShifted(p);
    hide Shifted, Emit, EmitItems, EmitHeader, Spaces, Out.Put;
    var args := e.args;
    match FormOf(e.function_, args) {
      case Block =>
        StatementsShift(args, |args|, ind + 1, a.Put("{"), b.Put("{"), p);
        var x, y := EmitStatements(args, |args|, ind + 1, a.Put("{")).0,
          EmitStatements(args, |args|, ind + 1, b.Put("{")).0;
        assert Shifted(x.Put("\n").Put(Spaces(ind)).Put("}"), y.Put("\n").Put(Spaces(ind)).Put("}"), p);
        TextOnly(x.Put("\n").Put(Spaces(ind)).Put("}"), y.Put("\n").Put(Spaces(ind)).Put("}"),
                 EmitCall(e, ind, a), EmitCall(e, ind, b), p);
      case If =>
        var x, y := Two(args[0].value, args[1].value, ind, a.Put("if ("), b.Put("if ("), ") ", p);
        if |args| == 3 { EmitShifts(args[2].value, ind, x.Put(" else "), y.Put(" else "), p); }
      case Paren => EmitShifts(args[0].value, ind, a.Put("("), b.Put("("), p);
      case FunctionDef =>
        HeaderShifts(args[0].value, ind, a, b, p);
        EmitShifts(args[1].value, ind, EmitHeader(args[0].value, ind, a).Put(" "),
                   EmitHeader(args[0].value, ind, b).Put(" "), p);
      case Unary(op) => EmitShifts(args[0].value, ind, a.Put(op), b.Put(op), p);
      case Binary(op) =>
        EmitShifts(args[0].value, ind, a, b, p);
        var x, y := Emit(args[0].value, ind, a), Emit(args[0].value, ind, b);
        EmitShifts(args[1].value, ind, x.Put(op), y.Put(op), p);
        EmitShifts(args[1].value, ind, x.Put(" ").Put(op).Put(" "), y.Put(" ").Put(op).Put(" "), p);
      case Index(op) =>
        EmitShifts(args[0].value, ind, a, b, p);
        ItemsShift(args, 1, |args|, ind, Emit(args[0].value, ind, a).Put(op), Emit(args[0].value, ind, b).Put(op), p);
      case Word(op) =>
      case For =>
        var x, y := Two(args[0].value, args[1].value, ind, a.Put("for ("), b.Put("for ("), " in ", p);
        EmitShifts(args[2].value, ind, x.Put(") "), y.Put(") "), p);
      case While =>
        var x, y := Two(args[0].value, args[1].value, ind, a.Put("while ("), b.Put("while ("), ") ", p);
      case Repeat => EmitShifts(args[0].value, ind, a.Put("repeat "), b.Put("repeat "), p);
      case Plain =>
        EmitShifts(e.function_, ind, a, b, p);
        ItemsShift(args, 0, |args|, ind, Emit(e.function_, ind, a).Put("("), Emit(e.function_, ind, b).Put("("), p);
    }
  }

  lemma TextOnly(a: Out, b: Out, a': Out, b': Out, p: string)
    requires Shifted(a, b, p) && a'.text == a.text && b'.text == b.text
    ensures Shifted(a', b', p)
  {
  }

  /** Two expressions with a text between them. */
  lemma {:induction false} Two(e: Expr, f: Expr, ind: nat, a: Out, b: Out, between: string, p: string)
    returns (x: Out, y: Out)
    requires Shifted(a, b, p)
    ensures x == Emit(f, ind, Emit(e, ind, a).Put(between)) && y == Emit(f, ind, Emit(e, ind, b).Put(between))
    ensures Shifted(x, y, p)
    decreases if e < f then f else e, 2
  {
    PutShifted(p);
    hide Shifted, Emit;
    EmitShifts(e, ind, a, b, p);
    EmitShifts(f, ind, Emit(e, ind, a).Put(between), Emit(e, ind, b).Put(between), p);
    x, y := Emit(f, ind, Emit(e, ind, a).Put(between)), Emit(f, ind, Emit(e, ind, b).Put(between));
  }

  lemma {:induction false} ItemsShift(items: seq<Item>, from: nat, n: nat, ind: nat, a: Out, b: Out, p: string)
    requires n <= |items| && Shifted(a, b, p)
    ensures Shifted(EmitItems(items, from, n, ind, a), EmitItems(items, from, n, ind, b), p)
    decreases items, n
  {
    PutShifted(p);
    hide Shifted, Emit, NamePrefix;
    if n > from {
      var k, sep, name := n - 1, Separator(n - 1 - from), NamePrefix(items[n - 1].name);
      ItemsShift(items, from, k, ind, a, b, p);
      var x, y := EmitItems(items, from, k, ind, a), EmitItems(items, from, k, ind, b);
      EmitShifts(items[k].value, ind, x.Put(sep).Put(name), y.Put(sep).Put(name), p);
    }
  }

  lemma {:induction false} AllShift(exprs: seq<Expr>, n: nat, ind: nat, a: Out, b: Out, p: string)
    requires n <= |exprs| && Shifted(a, b, p)
    ensures Shifted(EmitAll(exprs, n, ind, a), EmitAll(exprs, n, ind, b), p)
    decreases exprs, n
  {
    PutShifted(p);
    hide Shifted, Emit;
    if n > 0 {
      AllShift(exprs, n - 1, ind, a, b, p);
      var x, y := EmitAll(exprs, n - 1, ind, a), EmitAll(exprs, n - 1, ind, b);
      EmitShifts(exprs[n - 1], ind, x.Put(Separator(n - 1)), y.Put(Separator(n - 1)), p);
    }
  }

  lemma {:induction false} StatementsShift(args: seq<Item>, n: nat, ind: nat, a: Out, b: Out, p: string)
    requires n <= |args| && Shifted(a, b, p)
    ensures Shifted(EmitStatements(args, n, ind, a).0, EmitStatements(args, n, ind, b).0, p)
    decreases args, n
  {
    PutShifted(p);
    hide Shifted, Emit, Spaces;
    if n > 0 {
      StatementsShift(args, n - 1, ind, a, b, p);
      var x, y := EmitStatements(args, n - 1, ind, a).0, EmitStatements(args, n - 1, ind, b).0;
      EmitShifts(args[n - 1].value, ind, x.Put("\n").Put(Spaces(ind)), y.Put("\n").Put(Spaces(ind)), p);
    }
  }

  lemma {:induction false} HeaderShifts(formals: Expr, ind: nat, a: Out, b: Out, p: string)
    requires Shifted(a, b, p)
    ensures Shifted(EmitHeader(formals, ind, a), EmitHeader(formals, ind, b), p)
    decreases formals, 2
  {
    PutShifted(p);
    hide Shifted;
    if formals.PairList? {
      FormalsShift(formals.items, |formals.items|, ind, a.Put("function("), b.Put("function("), p);
    }
  }

  lemma {:induction false} FormalsShift(items: seq<Item>, n: nat, ind: nat, a: Out, b: Out, p: string)
    requires n <= |items| && Shifted(a, b, p)
    ensures Shifted(EmitFormals(items, n, ind, a), EmitFormals(items, n, ind, b), p)
    decreases items, n
  {
    PutShifted(p);
    hide Shifted, Emit, Quoted, FormalName;
    if n > 0 {
      var k, sep, name := n - 1, Separator(n - 1), Quoted(FormalName(items, n - 1));
      FormalsShift(items, k, ind, a, b, p);
      var x, y := EmitFormals(items, k, ind, a).Put(sep).Put(name), EmitFormals(items, k, ind, b).Put(sep).Put(name);
      EmitShifts(items[k].value, ind, x.Put(" = "), y.Put(" = "), p);
    }
  }

  /** Printing appends exactly what the expression prints on its own. */
  lemma EmitAppends(e: Expr, ind: nat, out: Out)
    ensures Emit(e, ind, out).text == out.text + Printed(e, ind)
  {
    assert Shifted(out, EMPTY, out.text);
    EmitShifts(e, ind, out, EMPTY, out.text);
  }
}
