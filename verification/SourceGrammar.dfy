/** The expressions whose printed text is R source that is read in one way only. */
module SourceGrammar {
  import opened Wrappers
  import opened StringUtil
  import opened TextBuilder
  import opened SourceReader

  // ----- The expressions whose syntax is unambiguous -----

  /** A name; one like `.5` is printed bare and reads as a number. */
  predicate IsName(s: string) {
    s != "" && (s[0] == '.' && IsWord(s) ==> !StartsNumber(s))
  }

  predicate IsTight(op: string) { op == "$" || op == "::" || op == ":::" }

  /** How tightly the outermost operator binds. */
  function Tightness(e: Expr): nat {
    if !e.Call? then TIGHTEST else
    match FormOf(e.function_, e.args)
    case Unary(op) => PrefixPrecedence(op)
    case Binary(op) => if IsTight(op) then TIGHTEST else Precedence(op)
    case _ => TIGHTEST
  }

  /** What can be called or indexed without parentheses. */
  predicate IsPrimary(e: Expr) {
    e.Call? ==>
      match FormOf(e.function_, e.args)
      case If => false
      case FunctionDef => false
      case For => false
      case While => false
      case Repeat => false
      case Unary(_) => false
      case Binary(op) => IsTight(op)
      case _ => true
  }

  predicate IsAtom(e: Expr) {
    e.Symbol? || (e.StringVector? && |e.strings| == 1 && e.strings[0].Chars?)
  }

  /** The last part, which extends as far to the right as it can. */
  function LastPart(e: Expr): (last: Option<Expr>)
    ensures last.Some? ==> last.value < e
  {
    if !e.Call? then None else
    match FormOf(e.function_, e.args)
    case If => Some(e.args[|e.args| - 1].value)
    case FunctionDef => Some(e.args[1].value)
    case For => Some(e.args[2].value)
    case While => Some(e.args[1].value)
    case Repeat => Some(e.args[0].value)
    case Unary(_) => Some(e.args[0].value)
    case Binary(op) => if IsTight(op) then None else Some(e.args[1].value)
    case _ => None
  }

  /** No operator can stand behind it, because the body of a keyword form would take it. */
  predicate EndsInBody(e: Expr)
    decreases e
  {
    LastPart(e).Some? && (Tightness(e) == TIGHTEST || EndsInBody(LastPart(e).value))
  }

  /** An `else` behind it would belong to it. */
  predicate EndsInIf(e: Expr)
    decreases e
  {
    LastPart(e).Some? && ((FormOf(e.function_, e.args) == If && |e.args| == 2) || EndsInIf(LastPart(e).value))
  }

  predicate OperandsFit(p: nat, left: Expr, right: Expr) {
    && p > 0 && !EndsInBody(left)
    && (if LeftToRight(p) then p <= Tightness(left) else p < Tightness(left))
    && (if RightToLeft(p) then p <= Tightness(right) else p < Tightness(right))
  }

  /** The parts of a form stand where R's grammar lets them stand without more parentheses. */
  predicate Fits(form: Form, args: seq<Item>)
  {
    match form
    case If =>
      && 2 <= |args| <= 3 && Tightness(args[0].value) >= ARGUMENT
      && (|args| == 3 ==> !EndsInIf(args[1].value))
    case For => |args| == 3 && args[0].value.Symbol? && Tightness(args[1].value) >= ARGUMENT
    case While => |args| == 2 && Tightness(args[0].value) >= ARGUMENT
    case Unary(op) => |args| == 1 && Tightness(args[0].value) >= PrefixPrecedence(op)
    case Binary(op) =>
      |args| == 2 &&
      if IsTight(op) then
        IsAtom(args[1].value) && (if op == "$" then IsPrimary(args[0].value) else IsAtom(args[0].value))
      else OperandsFit(Precedence(op), args[0].value, args[1].value)
    case _ => true
  }

  /** An expression as R's grammar has it: parentheses are calls of `(`, and operators stand under
      each other only as their precedence allows. */
  predicate IsSource(e: Expr)
    decreases e, 1
  {
    match e
    case Null => true
    case Symbol(name) => IsName(name)
    case Vector(_, elements) => |elements| == 1 && IsWord(elements[0]) && Constant(elements[0]) == Some(e)
    case StringVector(strings) => |strings| == 1 && (strings[0].Chars? || strings[0].NaString?)
    case Call(_, _) => IsSourceCall(e)
    case _ => false
  }

  predicate IsSourceCall(e: Expr)
    requires e.Call?
    decreases e, 0
  {
    var args := e.args;
    match FormOf(e.function_, args)
    case Plain => IsPrimary(e.function_) && IsSource(e.function_) && AreSourceItems(args, 0)
    case Index(_) =>
      args[0].name == "" && IsPrimary(args[0].value) && IsSource(args[0].value) && AreSourceItems(args, 1)
    case FunctionDef =>
      && |args| == 2 && args[0].name == "" && args[1].name == ""
      && AreSourceFormals(args[0].value) && IsSource(args[1].value)
    case form =>
      (forall i | 0 <= i < |args| :: args[i].name == "" && IsSource(args[i].value)) && Fits(form, args)
  }

  predicate IsSourceValue(e: Expr)
    decreases e, 2
  {
    IsMissing(e) || (IsSource(e) && Tightness(e) >= ARGUMENT)
  }

  /** Arguments, of which a single one is not missing altogether. */
  predicate AreSourceItems(items: seq<Item>, from: nat)
    requires from <= |items|
    decreases items
  {
    && (|items| == from + 1 ==> items[from].name != "" || !IsMissing(items[from].value))
    && forall i | from <= i < |items| :: (items[i].name == "" || IsName(items[i].name)) && IsSourceValue(items[i].value)
  }

  predicate AreSourceFormals(formals: Expr)
    decreases formals, 2
  {
    formals.Null? ||
    (formals.PairList? && formals.items != [] &&
     forall i | 0 <= i < |formals.items| ::
       IsName(formals.items[i].name) && IsSourceValue(formals.items[i].value))
  }

  // ----- What may stand behind an expression -----

  predicate EndsWord(rest: string) { rest == "" || !IsWordChar(rest[0]) }

  predicate CanFollow(rest: string) { rest == "" || rest[0] in " ),]\n" }

  function NextPrecedence(rest: string): nat { Precedence(OperatorAt(rest)) }

  /** Nothing in the text behind an expression would be read as a part of it. */
  predicate Follows(e: Expr, rest: string) {
    && CanFollow(rest)
    && (var p := NextPrecedence(rest);
        p == 0 || (!EndsInBody(e) && (p < Tightness(e) || (p == Tightness(e) && LeftToRight(p)))))
    && (EndsInIf(e) ==> Skip(rest, " else ").None?)
  }
}
