/**
 A reader of source text, by the precedence of operators in R. It knows nothing of the printer;
 only the layout of blocks (a statement a line, two spaces a level) is what the printer promises.
 */
module SourceReader {
  import opened Wrappers
  import opened StringUtil
  import opened TextBuilder

  /** What was read, and the text behind it. */
  datatype Reading<+T> = Reading(value: T, rest: string)

  /** The text behind a fixed one. */
  function Skip(t: string, fixed: string): (rest: Option<string>)
    ensures rest.Some? ==> t == fixed + rest.value
  {
    if |fixed| <= |t| && t[..|fixed|] == fixed then Some(t[|fixed|..]) else None
  }

  // ----- Words -----

  predicate IsWordChar(c: char) { c == '.' || c == '_' || IsAlpha(c) || IsDigit(c) }

  /** The longest word that a text starts with. */
  function WordAt(t: string): (w: string)
    ensures |w| <= |t|
  {
    if t != "" && IsWordChar(t[0]) then [t[0]] + WordAt(t[1..]) else ""
  }

  predicate IsKeyword(w: string) {
    w in {"if", "else", "repeat", "while", "function", "for", "in", "next", "break"}
  }

  predicate StartsNumber(w: string) {
    w != "" && (IsDigit(w[0]) || (w[0] == '.' && |w| >= 2 && IsDigit(w[1])))
  }

  predicate IsWord(w: string) { forall c <- w :: IsWordChar(c) }

  /** The constant that a word stands for. */
  function Constant(w: string): Option<Expr> {
    if '\n' in w then None
    else if w == "NULL" then Some(Null)
    else if w == "TRUE" || w == "FALSE" || w == "NA" || w == "NA_integer_" then Some(Vector("integer(0)", [w]))
    else if w == "NA_complex_" then Some(Vector("complex(0)", [w]))
    else if w == "NA_real_" || w == "Inf" || w == "NaN" || StartsNumber(w) then Some(Vector("numeric(0)", [w]))
    else if w == "NA_character_" then Some(StringVector([NaString]))
    else None
  }

  /** The text up to the next quote that has no backslash before it, and what is behind the quote. */
  function ReadQuoted(t: string, quote: char): (r: Option<Reading<string>>)
    ensures r.Some? ==> |r.value.rest| < |t|
  {
    if t == "" then None
    else if t[0] == quote then Some(Reading("", t[1..]))
    else if t[0] == '\\' && |t| >= 2 then
      var more :- ReadQuoted(t[2..], quote);
      Some(Reading([Unescape(t[1])] + more.value, more.rest))
    else
      var more :- ReadQuoted(t[1..], quote);
      Some(Reading([t[0]] + more.value, more.rest))
  }

  function Unescape(letter: char): char {
    if letter == 'b' then BACKSPACE else if letter == 't' then '\t' else if letter == 'n' then '\n'
    else if letter == 'f' then FORM_FEED else if letter == 'r' then '\r' else letter
  }

  function ReadName(t: string): (r: Option<Reading<string>>)
    ensures r.Some? ==> |r.value.rest| < |t|
  {
    if t == "" then None
    else if t[0] == '`' then ReadQuoted(t[1..], '`')
    else if WordAt(t) == "" || IsKeyword(WordAt(t)) || Constant(WordAt(t)).Some? then None
    else Some(Reading(WordAt(t), t[|WordAt(t)|..]))
  }

  /** A name or a string. */
  function ReadAtom(t: string): (r: Option<Reading<Expr>>)
    ensures r.Some? ==> |r.value.rest| < |t|
  {
    if t != "" && t[0] == '"' then
      var s :- ReadQuoted(t[1..], '"');
      Some(Reading(StringVector([Chars(s.value)]), s.rest))
    else
      var name :- ReadName(t);
      Some(Reading(Symbol(name.value), name.rest))
  }

  // ----- Operators -----

  // From the loosest to the tightest.
  const STATEMENT: nat := 1
  const ARGUMENT: nat := 2
  const TIGHTEST: nat := 20

  predicate IsCustom(op: string) {
    |op| >= 2 && op[0] == '%' && op[|op| - 1] == '%' && ' ' !in op && '\n' !in op &&
    forall i :: 0 < i < |op| - 1 ==> op[i] != '%'
  }

  /** How tightly an operator between spaces binds; 0 for what is none. */
  function Precedence(op: string): (p: nat)
    ensures p <= 14 && p != 7 && p != 13
  {
    if op == "=" then 1
    else if op == "<-" || op == "<<-" then 2
    else if op == "|" || op == "||" then 5
    else if op == "&" || op == "&&" then 6
    else if op == "<" || op == ">" || op == "<=" || op == ">=" || op == "==" || op == "!=" then 8
    else if op == "+" || op == "-" then 9
    else if op == "*" || op == "/" then 10
    else if IsCustom(op) then 11
    else if op == ":" then 12
    else if op == "^" then 14
    else 0
  }

  function PrefixPrecedence(op: string): nat {
    if op == "!" then 7 else if op == "-" || op == "+" then 13 else 0
  }

  predicate RightToLeft(precedence: nat) { precedence == 1 || precedence == 2 || precedence == 14 }

  predicate LeftToRight(precedence: nat) { !RightToLeft(precedence) && precedence != 8 }

  /** The operators between which and their operands no space is printed. */
  function TightOperator(t: string): (op: string)
    ensures |op| <= |t|
  {
    if Skip(t, "$").Some? then "$"
    else if Skip(t, ":::").Some? then ":::"
    else if Skip(t, "::").Some? then "::"
    else ""
  }

  /** The text up to the next space. */
  function UpToSpace(t: string): (w: string)
    ensures |w| <= |t|
  {
    if t == "" || t[0] == ' ' then "" else [t[0]] + UpToSpace(t[1..])
  }

  /** The operator at the start of a text, which stands between two spaces; "" when there is none. */
  function OperatorAt(t: string): (op: string)
    ensures Precedence(op) > 0 ==> |op| + 2 <= |t|
  {
    if t == "" || t[0] != ' ' then "" else
    var w := UpToSpace(t[1..]);
    if |w| + 2 <= |t| && Precedence(w) > 0 then w else ""
  }

  /** The calls that are not written as a name and arguments in parentheses. */
  predicate HasSyntax(f: Expr, n: nat) {
    f.Symbol? &&
    match f.name
    case "{" => true
    case "if" => 2 <= n <= 3
    case "for" => n == 3
    case "while" => n == 2
    case "function" => n >= 2
    case "(" => n == 1
    case "repeat" => n == 1
    case "break" => n == 0
    case "next" => n == 0
    case "[" => n >= 1
    case "[[" => n >= 1
    case op =>
      (n == 1 && PrefixPrecedence(op) > 0) || (n == 2 && (Precedence(op) > 0 || op == "$" || op == "::" || op == ":::"))
  }

  function Unnamed(exprs: seq<Expr>): seq<Item> {
    seq(|exprs|, i requires 0 <= i < |exprs| => Item("", exprs[i]))
  }

  function Apply(name: string, operands: seq<Expr>): Expr { Call(Symbol(name), Unnamed(operands)) }

  // ----- Expressions -----

  /** An expression whose operators all bind at least as tightly as `low`; `ind` is its indentation. */
  function ReadExpr(t: string, low: nat, ind: nat): (r: Option<Reading<Expr>>)
    ensures r.Some? ==> |r.value.rest| < |t|
    decreases |t|, 3
  {
    if t == "" then None
    else if PrefixPrecedence([t[0]]) > 0 then
      var operand :- ReadExpr(t[1..], PrefixPrecedence([t[0]]), ind);
      ReadOperators(Apply([t[0]], [operand.value]), operand.rest, low, ind)
    else
      var first :- ReadFirst(t, ind);
      ReadOperators(first.value, first.rest, low, ind)
  }

  function ReadFirst(t: string, ind: nat): (r: Option<Reading<Expr>>)
    ensures r.Some? ==> |r.value.rest| < |t|
    decreases |t|, 2
  {
    var w := WordAt(t);
    if w in {"if", "for", "while", "repeat", "function"} then ReadKeyword(w, t[|w|..], ind) else
    var base :- ReadBase(t, ind);
    ReadPostfix(base.value, base.rest, ind)
  }

  /** The operators that bind at least as tightly as `low`, behind their first operand. */
  function ReadOperators(left: Expr, t: string, low: nat, ind: nat): (r: Option<Reading<Expr>>)
    ensures r.Some? ==> |r.value.rest| <= |t|
    decreases |t|, 0
  {
    var op := OperatorAt(t);
    var p := Precedence(op);
    if p == 0 || p < low then Some(Reading(left, t)) else
    var right :- ReadExpr(t[|op| + 2..], if RightToLeft(p) then p else p + 1, ind);
    ReadOperators(Apply(op, [left, right.value]), right.rest, low, ind)
  }

  /** The forms that start with a keyword, behind the keyword. */
  function ReadKeyword(keyword: string, t: string, ind: nat): (r: Option<Reading<Expr>>)
    ensures r.Some? ==> |r.value.rest| < |t|
    decreases |t|, 4
  {
    match keyword
    case "if" =>
      var condition :- ReadCondition(t, ind);
      var then_ :- ReadExpr(condition.rest, STATEMENT, ind);
      var behind := Skip(then_.rest, " else ");
      if behind.None? then Some(Reading(Apply("if", [condition.value, then_.value]), then_.rest)) else
      var else_ :- ReadExpr(behind.value, STATEMENT, ind);
      Some(Reading(Apply("if", [condition.value, then_.value, else_.value]), else_.rest))
    case "for" =>
      var start :- Skip(t, " (");
      var name :- ReadName(start);
      var in_ :- Skip(name.rest, " in ");
      var elements :- ReadExpr(in_, ARGUMENT, ind);
      var end :- Skip(elements.rest, ") ");
      var body :- ReadExpr(end, STATEMENT, ind);
      Some(Reading(Apply("for", [Symbol(name.value), elements.value, body.value]), body.rest))
    case "while" =>
      var condition :- ReadCondition(t, ind);
      var body :- ReadExpr(condition.rest, STATEMENT, ind);
      Some(Reading(Apply("while", [condition.value, body.value]), body.rest))
    case "repeat" =>
      var start :- Skip(t, " ");
      var body :- ReadExpr(start, STATEMENT, ind);
      Some(Reading(Apply("repeat", [body.value]), body.rest))
    case _ =>
      var start :- Skip(t, "(");
      var formals :- ReadFormals(start, ind);
      var end :- Skip(formals.rest, " ");
      var body :- ReadExpr(end, STATEMENT, ind);
      Some(Reading(Apply("function", [formals.value, body.value]), body.rest))
  }

  /** A condition in parentheses and the space behind it. */
  function ReadCondition(t: string, ind: nat): (r: Option<Reading<Expr>>)
    ensures r.Some? ==> |r.value.rest| < |t|
    decreases |t|, 1
  {
    var start :- Skip(t, " (");
    var condition :- ReadExpr(start, ARGUMENT, ind);
    var end :- Skip(condition.rest, ") ");
    Some(Reading(condition.value, end))
  }

  function ReadBase(t: string, ind: nat): (r: Option<Reading<Expr>>)
    ensures r.Some? ==> |r.value.rest| < |t|
    decreases |t|, 1
  {
    if t == "" then None
    else if t[0] == '(' then
      var inner :- ReadExpr(t[1..], STATEMENT, ind);
      var end :- Skip(inner.rest, ")");
      Some(Reading(Apply("(", [inner.value]), end))
    else if t[0] == '{' then
      var statements :- ReadStatements(t[1..], ind);
      Some(Reading(Apply("{", statements.value), statements.rest))
    else if WordAt(t) == "break" || WordAt(t) == "next" then Some(Reading(Apply(WordAt(t), []), t[|WordAt(t)|..]))
    else if WordAt(t) != "" && Constant(WordAt(t)).Some? then Some(Reading(Constant(WordAt(t)).value, t[|WordAt(t)|..]))
    else ReadAtom(t)
  }

  /** Calls, indexing and the tight operators, from left to right. */
  function ReadPostfix(e: Expr, t: string, ind: nat): (r: Option<Reading<Expr>>)
    ensures r.Some? ==> |r.value.rest| <= |t|
    decreases |t|, 0
  {
    if t == "" then Some(Reading(e, t))
    else if t[0] == '(' then
      var items :- ReadItems(t[1..], ")", ind);
      if HasSyntax(e, |items.value|) then None else ReadPostfix(Call(e, items.value), items.rest, ind)
    else if Skip(t, "[[").Some? then
      var items :- ReadItems(t[2..], "]]", ind);
      ReadPostfix(Call(Symbol("[["), [Item("", e)] + items.value), items.rest, ind)
    else if t[0] == '[' then
      var items :- ReadItems(t[1..], "]", ind);
      ReadPostfix(Call(Symbol("["), [Item("", e)] + items.value), items.rest, ind)
    else if TightOperator(t) != "" then
      var op := TightOperator(t);
      var right :- ReadAtom(t[|op|..]);
      ReadPostfix(Apply(op, [e, right.value]), right.rest, ind)
    else Some(Reading(e, t))
  }

  // ----- Lists -----

  /** Arguments up to the closing bracket, which is read too. */
  function ReadItems(t: string, close: string, ind: nat): (r: Option<Reading<seq<Item>>>)
    ensures r.Some? ==> |r.value.rest| <= |t|
    decreases |t|, 7
  {
    var end := Skip(t, close);
    if end.Some? then Some(Reading([], end.value)) else ReadMoreItems(t, close, ind)
  }

  function ReadMoreItems(t: string, close: string, ind: nat): (r: Option<Reading<seq<Item>>>)
    ensures r.Some? ==> |r.value.rest| <= |t|
    decreases |t|, 6
  {
    var item :- ReadItem(t, ind);
    var end := Skip(item.rest, close);
    if end.Some? then Some(Reading([item.value], end.value)) else
    var next :- Skip(item.rest, ", ");
    var more :- ReadMoreItems(next, close, ind);
    Some(Reading([item.value] + more.value, more.rest))
  }

  /** An argument with or without a name. */
  function ReadItem(t: string, ind: nat): (r: Option<Reading<Item>>)
    ensures r.Some? ==> |r.value.rest| <= |t|
    decreases |t|, 5
  {
    var first :- ReadValue(t, ind);
    var named := Skip(first.rest, " = ");
    if !first.value.Symbol? || first.value.name == "" || named.None?
    then Some(Reading(Item("", first.value), first.rest))
    else
      var value :- ReadValue(named.value, ind);
      Some(Reading(Item(first.value.name, value.value), value.rest))
  }

  /** An argument's value, which can be missing. */
  function ReadValue(t: string, ind: nat): (r: Option<Reading<Expr>>)
    ensures r.Some? ==> |r.value.rest| <= |t|
    decreases |t|, 4
  {
    if t != "" && t[0] in ",)]" then Some(Reading(Symbol(""), t)) else ReadExpr(t, ARGUMENT, ind)
  }

  /** Formals up to the closing parenthesis. */
  function ReadFormals(t: string, ind: nat): (r: Option<Reading<Expr>>)
    ensures r.Some? ==> |r.value.rest| < |t|
    decreases |t|, 6
  {
    var end := Skip(t, ")");
    if end.Some? then Some(Reading(Null, end.value)) else
    var items :- ReadMoreFormals(t, ind);
    Some(Reading(PairList(items.value), items.rest))
  }

  function ReadMoreFormals(t: string, ind: nat): (r: Option<Reading<seq<Item>>>)
    ensures r.Some? ==> |r.value.rest| < |t|
    decreases |t|, 5
  {
    var formal :- ReadFormal(t, ind);
    var end := Skip(formal.rest, ")");
    if end.Some? then Some(Reading([formal.value], end.value)) else
    var next :- Skip(formal.rest, ", ");
    var more :- ReadMoreFormals(next, ind);
    Some(Reading([formal.value] + more.value, more.rest))
  }

  /** A formal with or without a default. */
  function ReadFormal(t: string, ind: nat): (r: Option<Reading<Item>>)
    ensures r.Some? ==> |r.value.rest| < |t|
    decreases |t|, 4
  {
    var name :- ReadName(t);
    var default := Skip(name.rest, " = ");
    if default.None? then Some(Reading(Item(name.value, Symbol("")), name.rest)) else
    var value :- ReadExpr(default.value, ARGUMENT, ind);
    Some(Reading(Item(name.value, value.value), value.rest))
  }

  /** A line break and the indentation of the line after it. */
  function NewLine(ind: nat): string { "\n" + seq(2 * ind, _ => ' ') }

  /** The statements of a block, behind its `{` and up to and with its `}`. */
  function ReadStatements(t: string, ind: nat): (r: Option<Reading<seq<Expr>>>)
    ensures r.Some? ==> |r.value.rest| < |t|
    decreases |t|, 0
  {
    var end := Skip(t, NewLine(ind) + "}");
    if end.Some? then Some(Reading([], end.value)) else
    var start :- Skip(t, NewLine(ind + 1));
    var statement :- ReadExpr(start, STATEMENT, ind + 1);
    var more :- ReadStatements(statement.rest, ind);
    Some(Reading([statement.value] + more.value, more.rest))
  }

  /** The expression that a whole text stands for. */
  function Read(t: string): Option<Expr> {
    var whole :- ReadExpr(t, STATEMENT, 0);
    if whole.rest == "" then Some(whole.value) else None
  }
}
