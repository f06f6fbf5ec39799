/** What the printer prints is read back. */
module SourceReaderLaws {
  import opened Wrappers
  import opened StringUtil
  import opened TextBuilder
  import opened SourceReader
  import opened SourceGrammar
  import opened PrintedTexts

  // ----- Fixed texts and words -----

  lemma Skips(fixed: string, rest: string)
    ensures Skip(fixed + rest, fixed) == Some(rest)
  {
    assert (fixed + rest)[..|fixed|] == fixed && (fixed + rest)[|fixed|..] == rest;
  }

  lemma {:induction false} WordEnds(w: string, rest: string)
    requires IsWord(w) && EndsWord(rest)
    ensures WordAt(w + rest) == w && (w + rest)[|w|..] == rest
  {
    if w == "" {
      assert w + rest == rest;
    } else {
      assert (w + rest)[1..] == w[1..] + rest;
      WordEnds(w[1..], rest);
      assert w == [w[0]] + w[1..];
    }
  }

  lemma NoWord(t: string)
    requires EndsWord(t)
    ensures WordAt(t) == ""
  {
  }

  lemma {:induction false} SpaceEnds(w: string, rest: string)
    requires ' ' !in w
    ensures UpToSpace(w + (" " + rest)) == w
  {
    if w == "" {
      assert w + (" " + rest) == " " + rest;
    } else {
      assert (w + (" " + rest))[1..] == w[1..] + (" " + rest);
      SpaceEnds(w[1..], rest);
      assert w == [w[0]] + w[1..];
    }
  }

  lemma OperatorsHaveNoSpace(op: string)
    requires Precedence(op) > 0
    ensures ' ' !in op && op != ""
  {
  }

  lemma OperatorStands(op: string, rest: string)
    requires Precedence(op) > 0
    ensures OperatorAt(" " + (op + (" " + rest))) == op
    ensures (" " + (op + (" " + rest)))[|op| + 2..] == rest
  {
    OperatorsHaveNoSpace(op);
    SpaceEnds(op, rest);
    hide Precedence, UpToSpace;
    var t := " " + (op + (" " + rest));
    assert t[1..] == op + (" " + rest);
  }

  lemma NoOperator(t: string)
    requires t == "" || t[0] != ' '
    ensures NextPrecedence(t) == 0
  {
  }

  lemma NoOperatorWord(w: string, rest: string)
    requires w == "else" || w == "in"
    ensures NextPrecedence(" " + (w + (" " + rest))) == 0
  {
    SpaceEnds(w, rest);
    assert (" " + (w + (" " + rest)))[1..] == w + (" " + rest);
    assert !IsCustom(w) by { assert w[0] != '%'; }
  }

  /** An `else` is no operator. */
  lemma ElseIsNoOperator(t: string)
    requires Skip(t, " else ").Some?
    ensures NextPrecedence(t) == 0
  {
    var rest := Skip(t, " else ").value;
    assert t == " " + ("else" + (" " + rest));
    NoOperatorWord("else", rest);
  }

  // ----- Quoted names and strings -----

  lemma ReadEscaped(c: char, alsoEscape: string, quote: char, rest: string)
    requires quote in alsoEscape && quote != '\\' && forall d <- alsoEscape :: d !in "btnfr"
    ensures ReadQuoted(EscapeChar(c, alsoEscape) + rest, quote) ==
              match ReadQuoted(rest, quote)
              case None => None
              case Some(more) => Some(Reading([c] + more.value, more.rest))
  {
    var e := EscapeChar(c, alsoEscape);
    if EscapeLetter(c) != "" || c in alsoEscape {
      var letter := e[1];
      assert e == ['\\', letter] && Unescape(letter) == c;
      assert (e + rest)[2..] == rest && (e + rest)[0] == '\\';
    } else {
      assert (e + rest)[1..] == rest && (e + rest)[0] == c;
    }
  }

  lemma {:induction false} ReadAllEscaped(s: string, alsoEscape: string, quote: char, rest: string)
    requires quote in alsoEscape && quote != '\\' && forall d <- alsoEscape :: d !in "btnfr"
    ensures ReadQuoted(Escaped(s, alsoEscape) + rest, quote) ==
              match ReadQuoted(rest, quote)
              case None => None
              case Some(more) => Some(Reading(s + more.value, more.rest))
  {
    hide ReadQuoted, EscapeChar;
    if s == "" {
      assert Escaped(s, alsoEscape) + rest == rest;
      assert forall t: string :: s + t == t;
    } else {
      var front, c := s[..|s| - 1], s[|s| - 1];
      assert Escaped(s, alsoEscape) + rest == Escaped(front, alsoEscape) + (EscapeChar(c, alsoEscape) + rest);
      ReadAllEscaped(front, alsoEscape, quote, EscapeChar(c, alsoEscape) + rest);
      ReadEscaped(c, alsoEscape, quote, rest);
      assert forall t: string :: front + ([c] + t) == s + t;
    }
  }

  lemma QuotedReads(s: string, alsoEscape: string, quote: char, rest: string)
    requires quote in alsoEscape && quote != '\\' && forall d <- alsoEscape :: d !in "btnfr"
    ensures ReadQuoted(Escaped(s, alsoEscape) + ([quote] + rest), quote) == Some(Reading(s, rest))
  {
    ReadAllEscaped(s, alsoEscape, quote, [quote] + rest);
    assert ([quote] + rest)[1..] == rest && s + "" == s;
  }

  lemma BareWord(s: string)
    requires IsName(s) && s !in RESERVED_WORDS && forall i: nat | i < |s| :: ValidAt(s, i)
    ensures IsWord(s) && !IsKeyword(s) && Constant(s).None?
  {
    assert forall c <- s :: IsWordChar(c) by {
      forall c | c in s ensures IsWordChar(c) {
        var i :| 0 <= i < |s| && s[i] == c;
        assert ValidAt(s, i);
      }
    }
    assert ValidAt(s, 0);
  }

  predicate NeedsQuotes(s: string) { s in RESERVED_WORDS || exists i: nat | i < |s| :: !ValidAt(s, i) }

  lemma InQuotes(quote: char, body: string, rest: string)
    ensures ([quote] + body + [quote] + rest)[0] == quote
    ensures ([quote] + body + [quote] + rest)[1..] == body + ([quote] + rest)
  {
  }

  lemma QuotedIs(s: string)
    requires NeedsQuotes(s)
    ensures Quoted(s) == ['`'] + Escaped(s, BACKQUOTE) + ['`']
  {
    hide Escaped;
  }

  lemma QuotedNameReads(s: string, rest: string)
    requires NeedsQuotes(s)
    ensures ReadName(Quoted(s) + rest) == Some(Reading(s, rest)) && Quoted(s) != "" && Quoted(s)[0] == '`'
  {
    QuotedIs(s);
    hide Escaped, ReadQuoted, Quoted, WordAt, IsKeyword, Constant, NeedsQuotes;
    QuotedReads(s, BACKQUOTE, '`', rest);
    InQuotes('`', Escaped(s, BACKQUOTE), rest);
  }

  lemma BareNameReads(s: string, rest: string)
    requires IsName(s) && EndsWord(rest) && !NeedsQuotes(s)
    ensures ReadName(s + rest) == Some(Reading(s, rest)) && Quoted(s) == s
    ensures s[0] != '`' && IsWord(s) && !IsKeyword(s) && Constant(s).None?
  {
    BareWord(s);
    WordEnds(s, rest);
    assert s[0] != '`' by { assert ValidAt(s, 0); }
    assert (s + rest)[0] == s[0];
    hide Constant, IsKeyword, WordAt, IsWord, IsName;
  }

  lemma NameReads(s: string, rest: string)
    requires IsName(s) && EndsWord(rest)
    ensures ReadName(Quoted(s) + rest) == Some(Reading(s, rest))
    ensures Quoted(s) != "" && (Quoted(s)[0] == '`' || (IsWord(Quoted(s)) && Quoted(s) == s))
    ensures Quoted(s)[0] != '`' ==> !IsKeyword(s) && Constant(s).None?
  {
    hide ReadName, NeedsQuotes, Constant, IsKeyword, IsWord, Quoted;
    if NeedsQuotes(s) { QuotedNameReads(s, rest); } else { BareNameReads(s, rest); }
  }

  // ----- Reading, step by step -----

  lemma Regroup(a: string, b: string, c: string, rest: string)
    ensures a + b + c + rest == a + (b + (c + rest))
  {
  }

  lemma Stops(e: Expr, rest: string, low: nat, ind: nat)
    requires NextPrecedence(rest) == 0 || NextPrecedence(rest) < low
    ensures ReadOperators(e, rest, low, ind) == Some(Reading(e, rest))
  {
    hide Precedence, OperatorAt, ReadExpr;
  }

  lemma CloseFollows(e: Expr, rest: string)
    requires rest == "" || rest[0] in "),]\n"
    ensures Follows(e, rest) && NextPrecedence(rest) == 0
  {
    NoOperator(rest);
    hide EndsInBody, EndsInIf, NextPrecedence, LeftToRight;
  }

  /** What follows a keyword form follows its body. */
  lemma BodyFollows(e: Expr, rest: string)
    requires LastPart(e).Some? && Tightness(e) == TIGHTEST && Follows(e, rest)
    ensures Follows(LastPart(e).value, rest) && NextPrecedence(rest) == 0
  {
    hide LastPart, Tightness, NextPrecedence, LeftToRight;
  }

  lemma AllAreTight(e: Expr)
    requires IsSource(e)
    ensures Tightness(e) >= STATEMENT
  {
  }

  predicate StartsForm(w: string) { w in {"if", "for", "while", "repeat", "function"} }

  lemma KeywordExpr(w: string, u: string, low: nat, ind: nat)
    requires StartsForm(w) && u != "" && !IsWordChar(u[0])
    ensures var r := ReadKeyword(w, u, ind);
            ReadExpr(w + u, low, ind) ==
              if r.None? then None else ReadOperators(r.value.value, r.value.rest, low, ind)
  {
    assert IsWord(w) && w != "" && PrefixPrecedence([w[0]]) == 0;
    WordEnds(w, u);
    assert (w + u)[0] == w[0];
    hide ReadKeyword, ReadOperators, ReadBase, ReadPostfix, WordAt, IsWord;
  }

  lemma ConditionReads(c: Expr, text: string, more: string, ind: nat)
    requires ReadExpr(text + (") " + more), ARGUMENT, ind) == Some(Reading(c, ") " + more))
    ensures ReadCondition(" (" + (text + (") " + more)), ind) == Some(Reading(c, more))
  {
    Skips(" (", text + (") " + more));
    Skips(") ", more);
    hide ReadExpr, Skip;
  }

  lemma WhileReads(t: string, c: Expr, more: string, body: Expr, rest: string, ind: nat)
    requires ReadCondition(t, ind) == Some(Reading(c, more))
    requires ReadExpr(more, STATEMENT, ind) == Some(Reading(body, rest))
    ensures ReadKeyword("while", t, ind) == Some(Reading(Apply("while", [c, body]), rest))
  {
    hide ReadExpr, ReadCondition, Skip;
  }

  lemma ShortIfReads(t: string, c: Expr, more: string, then_: Expr, rest: string, ind: nat)
    requires ReadCondition(t, ind) == Some(Reading(c, more))
    requires ReadExpr(more, STATEMENT, ind) == Some(Reading(then_, rest)) && Skip(rest, " else ").None?
    ensures ReadKeyword("if", t, ind) == Some(Reading(Apply("if", [c, then_]), rest))
  {
    hide ReadExpr, ReadCondition, Skip;
  }

  lemma LongIfReads(t: string, c: Expr, more: string, then_: Expr, behind: string, else_: Expr, rest: string, ind: nat)
    requires ReadCondition(t, ind) == Some(Reading(c, more))
    requires ReadExpr(more, STATEMENT, ind) == Some(Reading(then_, " else " + behind))
    requires ReadExpr(behind, STATEMENT, ind) == Some(Reading(else_, rest))
    ensures ReadKeyword("if", t, ind) == Some(Reading(Apply("if", [c, then_, else_]), rest))
  {
    Skips(" else ", behind);
    hide ReadExpr, ReadCondition, Skip;
  }

  lemma ForReads(name: string, text: string, elements: Expr, more: string, values: string, body: Expr, rest: string,
                 ind: nat)
    requires ReadName(text + (" in " + values)) == Some(Reading(name, " in " + values))
    requires ReadExpr(values, ARGUMENT, ind) == Some(Reading(elements, ") " + more))
    requires ReadExpr(more, STATEMENT, ind) == Some(Reading(body, rest))
    ensures ReadKeyword("for", " (" + (text + (" in " + values)), ind) ==
              Some(Reading(Apply("for", [Symbol(name), elements, body]), rest))
  {
    Skips(" (", text + (" in " + values));
    Skips(" in ", values);
    Skips(") ", more);
    hide ReadExpr, ReadName, Skip;
  }

  lemma RepeatReads(more: string, body: Expr, rest: string, ind: nat)
    requires ReadExpr(more, STATEMENT, ind) == Some(Reading(body, rest))
    ensures ReadKeyword("repeat", " " + more, ind) == Some(Reading(Apply("repeat", [body]), rest))
  {
    Skips(" ", more);
    hide ReadExpr, Skip;
  }

  lemma FunctionReads(t: string, formals: Expr, more: string, body: Expr, rest: string, ind: nat)
    requires ReadFormals(t, ind) == Some(Reading(formals, " " + more))
    requires ReadExpr(more, STATEMENT, ind) == Some(Reading(body, rest))
    ensures ReadKeyword("function", "(" + t, ind) == Some(Reading(Apply("function", [formals, body]), rest))
  {
    Skips("(", t);
    Skips(" ", more);
    hide ReadExpr, ReadFormals, Skip;
  }

  /** A prefix operator, which takes its operand and leaves the rest. */
  lemma PrefixReads(op: string, t: string, operand: Expr, rest: string, low: nat, ind: nat)
    requires |op| == 1 && PrefixPrecedence(op) > 0
    requires ReadExpr(t, PrefixPrecedence(op), ind) == Some(Reading(operand, rest))
    ensures ReadExpr(op + t, low, ind) == ReadOperators(Apply(op, [operand]), rest, low, ind)
  {
    assert (op + t)[1..] == t && [(op + t)[0]] == op;
    hide ReadOperators, ReadFirst, PrefixPrecedence;
  }

  /** An operator behind its left operand. */
  lemma InfixReads(left: Expr, op: string, t: string, right: Expr, rest: string, low: nat, ind: nat)
    requires Precedence(op) > 0 && low <= Precedence(op)
    requires ReadExpr(t, if RightToLeft(Precedence(op)) then Precedence(op) else Precedence(op) + 1, ind) ==
        Some(Reading(right, rest))
    ensures ReadOperators(left, " " + (op + (" " + t)), low, ind) ==
              ReadOperators(Apply(op, [left, right]), rest, low, ind)
  {
    OperatorStands(op, t);
    hide ReadExpr, Precedence, OperatorAt;
  }

  // ----- Names, constants and strings -----

  lemma NameStarts(name: string)
    requires IsName(name)
    ensures Quoted(name) != "" && (Quoted(name)[0] == '`' || IsWordChar(Quoted(name)[0]))
  {
    hide Quoted, ReadName, IsWordChar, Constant, IsKeyword;
    NameReads(name, "");
  }

  lemma NameIsAtom(t: string, name: string, rest: string)
    requires ReadName(t) == Some(Reading(name, rest)) && t != "" && t[0] != '"'
    ensures ReadAtom(t) == Some(Reading(Symbol(name), rest))
  {
    hide ReadName, ReadQuoted;
  }

  lemma SymbolReads(e: Expr, rest: string, ind: nat)
    requires e.Symbol? && IsName(e.name) && EndsWord(rest)
    ensures ReadAtom(Printed(e, ind) + rest) == Some(Reading(e, rest))
    ensures Printed(e, ind) != "" && (Printed(e, ind)[0] == '`' || IsWordChar(Printed(e, ind)[0]))
  {
    hide Quoted, ReadName, Printed, ReadQuoted, Constant, IsKeyword, IsName, EndsWord, IsWord, ReadAtom;
    SymbolText(e, ind);
    NameStarts(e.name);
    NameReads(e.name, rest);
    FirstOf(Quoted(e.name), rest);
    NameIsAtom(Quoted(e.name) + rest, e.name, rest);
  }

  lemma AtomReads(e: Expr, rest: string, ind: nat)
    requires IsSource(e) && IsAtom(e) && EndsWord(rest)
    ensures ReadAtom(Printed(e, ind) + rest) == Some(Reading(e, rest))
    ensures Printed(e, ind) != "" && (Printed(e, ind)[0] in "`\"" || IsWordChar(Printed(e, ind)[0]))
  {
    hide ReadAtom, Printed, EndsWord, IsName;
    if e.Symbol? {
      SymbolReads(e, rest, ind);
    } else {
      StringReads(e.strings[0].content, rest, ind);
      assert e == StringVector([Chars(e.strings[0].content)]);
    }
  }

  lemma SymbolText(e: Expr, ind: nat)
    requires e.Symbol?
    ensures Printed(e, ind) == Quoted(e.name)
  {
    hide Quoted;
  }

  lemma StringText(s: string, ind: nat)
    ensures Printed(StringVector([Chars(s)]), ind) == ['"'] + Escaped(s, QUOTES) + ['"']
  {
    hide Escaped;
    var out := EMPTY.Put("\"").Put(Escaped(s, QUOTES)).Put("\"");
    assert EmitAll([Chars(s)], 1, ind, EMPTY) == out by {
      assert EmitAll([Chars(s)], 0, ind, EMPTY).Put(Separator(0)) == EMPTY;
    }
    assert out.text == ['"'] + Escaped(s, QUOTES) + ['"'];
  }

  lemma StringReads(s: string, rest: string, ind: nat)
    ensures ReadAtom(Printed(StringVector([Chars(s)]), ind) + rest) == Some(Reading(StringVector([Chars(s)]), rest))
    ensures Printed(StringVector([Chars(s)]), ind) != "" && Printed(StringVector([Chars(s)]), ind)[0] == '"'
  {
    StringText(s, ind);
    hide Printed, Escaped, ReadQuoted, ReadName;
    QuotedReads(s, QUOTES, '"', rest);
    InQuotes('"', Escaped(s, QUOTES), rest);
  }

  /** The word that is printed for a constant. */
  function ConstantWord(e: Expr): string {
    match e
    case Vector(_, elements) => if |elements| == 1 then elements[0] else ""
    case Null => "NULL"
    case _ => "NA_character_"
  }

  predicate IsConstant(e: Expr) {
    e.Null? || e.Vector? || (e.StringVector? && |e.strings| == 1 && e.strings[0].NaString?)
  }

  lemma ConstantText(e: Expr, ind: nat)
    requires IsSource(e) && IsConstant(e)
    ensures Printed(e, ind) == ConstantWord(e)
  {
    match e {
      case Vector(_, elements) =>
        assert Elements(elements, 1) == "" + Separator(0) + elements[0];
      case StringVector(strings) =>
        assert strings == [NaString];
        assert EmitAll([NaString], 0, ind, EMPTY).Put(Separator(0)) == EMPTY;
        assert EmitAll([NaString], 1, ind, EMPTY) == EMPTY.Put("NA_character_");
      case _ =>
    }
  }

  lemma ConstantIsWord(e: Expr)
    requires IsSource(e) && IsConstant(e)
    ensures IsWord(ConstantWord(e)) && Constant(ConstantWord(e)) == Some(e)
    ensures ConstantWord(e) != "" && !IsKeyword(ConstantWord(e))
  {
    match e {
      case StringVector(strings) => assert strings == [NaString];
      case _ =>
    }
  }

  /** A word that is no keyword form starts nothing but itself. */
  lemma WordIsFirst(w: string, rest: string, ind: nat)
    requires IsWord(w) && w != "" && EndsWord(rest)
    ensures WordAt(w + rest) == w && (w + rest)[|w|..] == rest && (w + rest)[0] == w[0]
    ensures w[0] !in "(){[`\"" && PrefixPrecedence([w[0]]) == 0
  {
    WordEnds(w, rest);
    assert IsWordChar(w[0]);
  }

  lemma ConstantReads(e: Expr, rest: string, ind: nat)
    requires IsSource(e) && IsConstant(e) && EndsWord(rest)
    ensures ReadFirst(Printed(e, ind) + rest, ind) == ReadPostfix(e, rest, ind)
    ensures Printed(e, ind) != "" && PrefixPrecedence([Printed(e, ind)[0]]) == 0
  {
    ConstantText(e, ind);
    ConstantIsWord(e);
    var w := ConstantWord(e);
    WordIsFirst(w, rest, ind);
    hide ConstantWord, Printed, IsWord, WordAt, IsSource, IsConstant, ReadPostfix, Constant, ReadAtom, ReadExpr;
    hide ReadStatements;
    hide ReadFirst, PrefixPrecedence, EndsWord;
    ConstantIsFirst(w + rest, e, w, rest, ind);
  }

  lemma ConstantIsFirst(t: string, e: Expr, w: string, rest: string, ind: nat)
    requires t != "" && WordAt(t) == w && t[|w|..] == rest && t[0] !in "({" && w != ""
    requires !IsKeyword(w) && Constant(w) == Some(e)
    ensures ReadFirst(t, ind) == ReadPostfix(e, rest, ind)
  {
    hide WordAt, ReadPostfix, Constant, ReadAtom, ReadExpr, ReadStatements;
  }

  lemma AtomIsFirst(e: Expr, rest: string, ind: nat)
    requires IsSource(e) && IsAtom(e) && EndsWord(rest)
    ensures ReadFirst(Printed(e, ind) + rest, ind) == ReadPostfix(e, rest, ind)
    ensures Printed(e, ind) != "" && PrefixPrecedence([Printed(e, ind)[0]]) == 0
  {
    hide Printed, WordAt, IsSource, IsAtom, ReadPostfix, Constant, ReadAtom, ReadExpr, ReadStatements, ReadFirst;
    hide EndsWord;
    AtomReads(e, rest, ind);
    AtomIsNoForm(e, rest, ind);
    FirstOf(Printed(e, ind), rest);
    BaseIsFirst(Printed(e, ind) + rest, e, rest, ind);
  }

  lemma BaseIsFirst(t: string, e: Expr, rest: string, ind: nat)
    requires ReadAtom(t) == Some(Reading(e, rest)) && t != "" && (t[0] in "`\"" || IsWordChar(t[0]))
    requires var w := WordAt(t); !IsKeyword(w) && (w == "" || Constant(w).None?)
    ensures ReadFirst(t, ind) == ReadPostfix(e, rest, ind) && PrefixPrecedence([t[0]]) == 0
  {
    hide WordAt, ReadPostfix, Constant, ReadAtom, ReadExpr, ReadStatements;
  }

  lemma AtomIsNoForm(e: Expr, rest: string, ind: nat)
    requires IsSource(e) && IsAtom(e) && EndsWord(rest)
    ensures var w := WordAt(Printed(e, ind) + rest); !IsKeyword(w) && (w == "" || Constant(w).None?)
  {
    if e.Symbol? {
      SymbolIsNoForm(e.name, rest);
      SymbolText(e, ind);
      hide Quoted, WordAt;
    } else {
      hide Printed, WordAt, ReadAtom, EndsWord;
      StringReads(e.strings[0].content, rest, ind);
      assert e == StringVector([Chars(e.strings[0].content)]);
      FirstOf(Printed(e, ind), rest);
      NoWord(Printed(e, ind) + rest);
    }
  }

  lemma SymbolIsNoForm(name: string, rest: string)
    requires IsName(name) && EndsWord(rest)
    ensures var w := WordAt(Quoted(name) + rest); !IsKeyword(w) && (w == "" || Constant(w).None?)
  {
    hide Quoted, ReadName, WordAt, IsName, Constant, ReadQuoted;
    NameReads(name, rest);
    if Quoted(name)[0] == '`' {
      FirstOf(Quoted(name), rest);
      NoWord(Quoted(name) + rest);
    } else {
      WordEnds(name, rest);
    }
  }

  // ----- What stands behind a name, a constant or a bracket -----

  lemma StopsPostfix(e: Expr, rest: string, ind: nat)
    requires CanFollow(rest)
    ensures ReadPostfix(e, rest, ind) == Some(Reading(e, rest))
  {
    hide ReadItems, ReadAtom;
  }

  lemma CallReads(f: Expr, t: string, items: seq<Item>, rest: string, ind: nat)
    requires ReadItems(t, ")", ind) == Some(Reading(items, rest)) && !HasSyntax(f, |items|)
    ensures ReadPostfix(f, "(" + t, ind) == ReadPostfix(Call(f, items), rest, ind)
  {
    assert ("(" + t)[1..] == t;
    hide ReadItems, HasSyntax;
  }

  lemma IndexReads(e: Expr, op: string, t: string, items: seq<Item>, rest: string, ind: nat)
    requires op == "[" || op == "[["
    requires ReadItems(t, if op == "[" then "]" else "]]", ind) == Some(Reading(items, rest))
    requires t != "" && t[0] != '['
    ensures ReadPostfix(e, op + t, ind) == ReadPostfix(Call(Symbol(op), [Item("", e)] + items), rest, ind)
  {
    assert (op + t)[0] == '[' && (op + t)[|op|..] == t;
    Skips(op, t);
    if op == "[" { assert (op + t)[1] != '['; }
    hide ReadItems;
  }

  lemma TightReads(e: Expr, op: string, t: string, right: Expr, rest: string, ind: nat)
    requires IsTight(op) && t != "" && t[0] != ':'
    requires ReadAtom(t) == Some(Reading(right, rest))
    ensures ReadPostfix(e, op + t, ind) == ReadPostfix(Apply(op, [e, right]), rest, ind)
  {
    Skips(op, t);
    assert (op + t)[0] == op[0] && (op + t)[|op|..] == t;
    assert TightOperator(op + t) == op by {
      if op == "::" { assert (op + t)[2] != ':'; }
    }
    hide ReadAtom, TightOperator;
  }

  lemma ParenReads(t: string, inner: Expr, rest: string, ind: nat)
    requires ReadExpr(t, STATEMENT, ind) == Some(Reading(inner, ")" + rest))
    ensures ReadFirst("(" + t, ind) == ReadPostfix(Apply("(", [inner]), rest, ind)
  {
    assert ("(" + t)[1..] == t;
    Skips(")", rest);
    NoWord("(" + t);
    hide ReadExpr, WordAt, ReadPostfix, Skip;
  }

  lemma BlockReads(t: string, statements: seq<Expr>, rest: string, ind: nat)
    requires ReadStatements(t, ind) == Some(Reading(statements, rest))
    ensures ReadFirst("{" + t, ind) == ReadPostfix(Apply("{", statements), rest, ind)
  {
    assert ("{" + t)[1..] == t;
    NoWord("{" + t);
    hide ReadStatements, WordAt, ReadPostfix, ReadExpr, Skip;
  }

  lemma WordReads(w: string, rest: string, ind: nat)
    requires w == "break" || w == "next"
    requires EndsWord(rest)
    ensures ReadFirst(w + rest, ind) == ReadPostfix(Apply(w, []), rest, ind)
  {
    WordIsFirst(w, rest, ind);
    hide WordAt, ReadPostfix, ReadExpr, ReadStatements, Constant, ReadAtom;
  }

  lemma PlainHasNoSyntax(f: Expr, args: seq<Item>)
    requires FormOf(f, args) == Plain
    ensures !HasSyntax(f, |args|)
  {
  }

  /** No expression starts with a closing bracket or a comma, nor with an opening `[`. */
  lemma NoExpr(t: string, low: nat, ind: nat)
    requires t == "" || t[0] in ",)]["
    ensures ReadExpr(t, low, ind).None?
  {
    if t != "" {
      NoWord(t);
      hide WordAt, ReadKeyword, ReadStatements, ReadPostfix, ReadOperators, ReadExpr;
      assert ReadAtom(t).None? && ReadBase(t, ind).None?;
      assert [t[0]][0] == t[0] && PrefixPrecedence([t[0]]) == 0;
      assert ReadFirst(t, ind).None?;
    }
  }

  lemma SomeExpr(t: string, low: nat, ind: nat)
    requires ReadExpr(t, low, ind).Some?
    ensures t != "" && t[0] !in ",)]["
  {
    hide ReadExpr;
    if t == "" || t[0] in ",)][" { NoExpr(t, low, ind); }
  }

  // ----- Reading what was printed -----

  /** An expression that stands before a text which does not go on with an operator. */
  lemma {:induction false} PartReads(e: Expr, rest: string, low: nat, ind: nat)
    requires IsSource(e) && Follows(e, rest) && low <= Tightness(e)
    requires NextPrecedence(rest) == 0 || NextPrecedence(rest) < low
    ensures ReadExpr(Printed(e, ind) + rest, low, ind) == Some(Reading(e, rest))
    decreases e, 4
  {
    hide IsSource, Follows, NextPrecedence, Tightness, Printed, ReadExpr, ReadOperators, ReadKeyword, ReadCondition;
    ExprReads(e, rest, low, ind);
    Stops(e, rest, low, ind);
  }

  /** Reading a printed expression arrives where its operators are all read. */
  lemma {:induction false} ExprReads(e: Expr, rest: string, low: nat, ind: nat)
    requires IsSource(e) && Follows(e, rest) && low <= Tightness(e)
    ensures ReadExpr(Printed(e, ind) + rest, low, ind) == ReadOperators(e, rest, low, ind)
    decreases e, 3
  {
    if IsPrimary(e) {
      PrimaryExprReads(e, rest, low, ind);
    } else {
      hide IsSource, Follows, Tightness, ReadExpr, ReadOperators, Printed;
      match FormOf(e.function_, e.args) {
        case If => IfReadsBack(e, rest, low, ind);
        case For => ForReadsBack(e, rest, low, ind);
        case While => WhileReadsBack(e, rest, low, ind);
        case Repeat => RepeatReadsBack(e, rest, low, ind);
        case FunctionDef => FunctionReadsBack(e, rest, low, ind);
        case Unary(op) => UnaryReadsBack(e, op, rest, low, ind);
        case Binary(op) => BinaryReadsBack(e, op, rest, low, ind);
      }
    }
  }

  lemma FollowersEndWords(rest: string)
    requires CanFollow(rest)
    ensures EndsWord(rest)
  {
  }

  lemma FirstThenOperators(e: Expr, rest: string, low: nat, ind: nat)
    requires ReadFirst(Printed(e, ind) + rest, ind) == ReadPostfix(e, rest, ind) && CanFollow(rest)
    requires Printed(e, ind) != "" && PrefixPrecedence([Printed(e, ind)[0]]) == 0
    ensures ReadExpr(Printed(e, ind) + rest, low, ind) == ReadOperators(e, rest, low, ind)
  {
    StopsPostfix(e, rest, ind);
    var t := Printed(e, ind) + rest;
    assert t[0] == Printed(e, ind)[0];
    hide Printed, ReadPostfix, ReadOperators, ReadFirst, PrefixPrecedence, CanFollow;
  }

  lemma {:induction false} PrimaryExprReads(e: Expr, rest: string, low: nat, ind: nat)
    requires IsSource(e) && IsPrimary(e) && Follows(e, rest)
    ensures ReadExpr(Printed(e, ind) + rest, low, ind) == ReadOperators(e, rest, low, ind)
    decreases e, 2
  {
    hide IsSource, IsPrimary, Printed, ReadPostfix, ReadOperators, ReadFirst, ReadExpr, PrefixPrecedence;
    FollowersEndWords(rest);
    PrimaryReads(e, rest, ind);
    FirstThenOperators(e, rest, low, ind);
  }

  // ----- Keyword forms -----

  predicate IsBodyForm(form: Form) { form in {If, For, While, Repeat} }

  lemma FormParts(e: Expr)
    requires e.Call? && IsSource(e) && IsBodyForm(FormOf(e.function_, e.args))
    ensures forall i | 0 <= i < |e.args| ::
              e.args[i].name == "" && IsSource(e.args[i].value) && Tightness(e.args[i].value) >= STATEMENT
    ensures Fits(FormOf(e.function_, e.args), e.args)
    ensures LastPart(e).Some? && Tightness(e) == TIGHTEST
  {
    assert IsSourceCall(e);
    forall i | 0 <= i < |e.args| ensures Tightness(e.args[i].value) >= STATEMENT { AllAreTight(e.args[i].value); }
  }

  /** A condition, the text behind its parenthesis, and what is read there. */
  lemma {:induction false} ConditionReadsBack(c: Expr, more: string, ind: nat)
    requires IsSource(c) && Tightness(c) >= ARGUMENT
    ensures ReadCondition(" (" + (Printed(c, ind) + (") " + more)), ind) == Some(Reading(c, more))
    decreases c, 5
  {
    hide IsSource, Follows, NextPrecedence, Tightness, Printed, ReadExpr, ReadOperators, ReadKeyword, ReadCondition;
    hide Apply;
    assert (") " + more)[0] == ')';
    CloseFollows(c, ") " + more);
    PartReads(c, ") " + more, ARGUMENT, ind);
    ConditionReads(c, Printed(c, ind), more, ind);
  }

  lemma WhileParts(e: Expr, rest: string)
    requires e.Call? && FormOf(e.function_, e.args) == While && IsSource(e) && Follows(e, rest)
    ensures |e.args| == 2
    ensures var c, body := e.args[0].value, e.args[1].value;
            && e == Apply("while", [c, body]) && IsSource(c) && IsSource(body) && Tightness(c) >= ARGUMENT
            && Tightness(body) >= STATEMENT && Follows(body, rest) && NextPrecedence(rest) == 0
  {
    FormParts(e);
    BodyFollows(e, rest);
    hide IsSource, Follows, NextPrecedence, Tightness;
    assert e.args == Unnamed([e.args[0].value, e.args[1].value]);
  }

  lemma {:induction false} WhileReadsBack(e: Expr, rest: string, low: nat, ind: nat)
    requires e.Call? && FormOf(e.function_, e.args) == While && IsSource(e) && Follows(e, rest)
    ensures ReadExpr(Printed(e, ind) + rest, low, ind) == ReadOperators(e, rest, low, ind)
    decreases e, 0
  {
    hide IsSource, Follows, NextPrecedence, Tightness, Printed, ReadExpr, ReadOperators, ReadKeyword, ReadCondition;
    hide Apply, FormOf;
    WhileParts(e, rest);
    var c, body := e.args[0].value, e.args[1].value;
    var more := Printed(body, ind) + rest;
    ConditionReadsBack(c, more, ind);
    PartReads(body, rest, STATEMENT, ind);
    var t := " (" + (Printed(c, ind) + (") " + more));
    WhileReads(t, c, more, body, rest, ind);
    WhileText(e, ind);
    assert "while (" == "while" + " (";
    ConditionText("while", Printed(c, ind), Printed(body, ind), rest);
    KeywordForm("while", t, e, rest, low, ind);
  }

  /** A form that is read behind its keyword is read in front of it. */
  lemma KeywordForm(w: string, t: string, e: Expr, rest: string, low: nat, ind: nat)
    requires StartsForm(w) && t != "" && !IsWordChar(t[0])
    requires ReadKeyword(w, t, ind) == Some(Reading(e, rest))
    ensures ReadExpr(w + t, low, ind) == ReadOperators(e, rest, low, ind)
  {
    hide ReadExpr, ReadOperators, ReadKeyword;
    KeywordExpr(w, t, low, ind);
  }

  lemma ConditionText(w: string, c: string, body: string, rest: string)
    ensures (w + " (") + c + ") " + body + rest == w + (" (" + (c + (") " + (body + rest))))
  {
  }

  lemma IfParts(e: Expr, rest: string)
    requires e.Call? && FormOf(e.function_, e.args) == If && IsSource(e) && Follows(e, rest)
    ensures 2 <= |e.args| <= 3
    ensures var c, then_ := e.args[0].value, e.args[1].value;
            && IsSource(c) && IsSource(then_) && Tightness(c) >= ARGUMENT && Tightness(then_) >= STATEMENT
            && NextPrecedence(rest) == 0
            && (|e.args| == 2 ==>
                  e == Apply("if", [c, then_]) && Follows(then_, rest) && Skip(rest, " else ").None?)
            && (|e.args| == 3 ==>
                  && e == Apply("if", [c, then_, e.args[2].value]) && !EndsInIf(then_)
                  && IsSource(e.args[2].value) && Tightness(e.args[2].value) >= STATEMENT
                  && Follows(e.args[2].value, rest))
  {
    FormParts(e);
    BodyFollows(e, rest);
    if |e.args| == 2 {
      assert EndsInIf(e);
      hide IsSource, NextPrecedence, Tightness, EndsInIf, EndsInBody;
      assert e.args == Unnamed([e.args[0].value, e.args[1].value]);
    } else {
      hide IsSource, Follows, NextPrecedence, Tightness;
      assert e.args == Unnamed([e.args[0].value, e.args[1].value, e.args[2].value]);
    }
  }

  lemma ElseFollows(e: Expr, more: string)
    requires !EndsInIf(e)
    ensures Follows(e, " else " + more) && NextPrecedence(" else " + more) == 0
  {
    assert " else " + more == " " + ("else" + (" " + more)) by { assert " else " == " " + ("else" + " "); }
    NoOperatorWord("else", more);
    hide EndsInIf, NextPrecedence;
  }

  lemma ElseText(c: string, then_: string, else_: string, rest: string)
    ensures "if (" + c + ") " + then_ + (" else " + else_) + rest ==
              "if" + (" (" + (c + (") " + (then_ + (" else " + (else_ + rest))))))
  {
    assert "if (" == "if" + " (";
    Regroup("if (" + c + ") " + then_, " else ", else_, rest);
    ConditionText("if", c, then_, " else " + (else_ + rest));
  }

  lemma {:induction false} IfReadsBack(e: Expr, rest: string, low: nat, ind: nat)
    requires e.Call? && FormOf(e.function_, e.args) == If && IsSource(e) && Follows(e, rest)
    ensures ReadExpr(Printed(e, ind) + rest, low, ind) == ReadOperators(e, rest, low, ind)
    decreases e, 1
  {
    hide IsSource, Follows, NextPrecedence, Tightness, Printed, ReadExpr, ReadOperators, ReadKeyword, ReadCondition;
    hide Apply, FormOf;
    IfParts(e, rest);
    IfText(e, ind);
    var c, then_ := e.args[0].value, e.args[1].value;
    if |e.args| == 2 {
      var more := Printed(then_, ind) + rest;
      ConditionReadsBack(c, more, ind);
      PartReads(then_, rest, STATEMENT, ind);
      var t := " (" + (Printed(c, ind) + (") " + more));
      ShortIfReads(t, c, more, then_, rest, ind);
      assert "if (" == "if" + " (" && Printed(e, ind) == "if (" + Printed(c, ind) + ") " + Printed(then_, ind);
      ConditionText("if", Printed(c, ind), Printed(then_, ind), rest);
      KeywordForm("if", t, e, rest, low, ind);
    } else {
      LongIfReadsBack(e, rest, low, ind);
    }
  }

  lemma {:induction false} LongIfReadsBack(e: Expr, rest: string, low: nat, ind: nat)
    requires e.Call? && FormOf(e.function_, e.args) == If && |e.args| == 3 && IsSource(e) && Follows(e, rest)
    ensures ReadExpr(Printed(e, ind) + rest, low, ind) == ReadOperators(e, rest, low, ind)
    decreases e, 0
  {
    hide IsSource, Follows, NextPrecedence, Tightness, Printed, ReadExpr, ReadOperators, ReadKeyword, ReadCondition;
    hide Apply, FormOf;
    IfParts(e, rest);
    IfText(e, ind);
    var c, then_, else_ := e.args[0].value, e.args[1].value, e.args[2].value;
    var behind := Printed(else_, ind) + rest;
    var more := Printed(then_, ind) + (" else " + behind);
    ConditionReadsBack(c, more, ind);
    ElseFollows(then_, behind);
    PartReads(then_, " else " + behind, STATEMENT, ind);
    PartReads(else_, rest, STATEMENT, ind);
    var t := " (" + (Printed(c, ind) + (") " + more));
    LongIfReads(t, c, more, then_, behind, else_, rest, ind);
    ElseText(Printed(c, ind), Printed(then_, ind), Printed(else_, ind), rest);
    KeywordForm("if", t, e, rest, low, ind);
  }

  lemma ForParts(e: Expr, rest: string)
    requires e.Call? && FormOf(e.function_, e.args) == For && IsSource(e) && Follows(e, rest)
    ensures |e.args| == 3 && e.args[0].value.Symbol? && IsName(e.args[0].value.name)
    ensures var elements, body := e.args[1].value, e.args[2].value;
            && e == Apply("for", [e.args[0].value, elements, body])
            && IsSource(elements) && IsSource(body) && Tightness(elements) >= ARGUMENT
            && Tightness(body) >= STATEMENT && Follows(body, rest) && NextPrecedence(rest) == 0
  {
    FormParts(e);
    BodyFollows(e, rest);
    assert IsSource(e.args[0].value);
    hide Follows, NextPrecedence, Tightness;
    assert e.args == Unnamed([e.args[0].value, e.args[1].value, e.args[2].value]);
  }

  lemma ForTexts(name: string, elements: string, body: string, rest: string)
    ensures "for (" + name + " in " + elements + ") " + body + rest ==
              "for" + (" (" + (name + (" in " + (elements + (") " + (body + rest))))))
  {
    assert "for (" == "for" + " (";
    Regroup("for (" + name + " in " + elements, ") ", body, rest);
    Regroup("for (" + name, " in ", elements, ") " + (body + rest));
  }

  lemma {:induction false} ForReadsBack(e: Expr, rest: string, low: nat, ind: nat)
    requires e.Call? && FormOf(e.function_, e.args) == For && IsSource(e) && Follows(e, rest)
    ensures ReadExpr(Printed(e, ind) + rest, low, ind) == ReadOperators(e, rest, low, ind)
    decreases e, 0
  {
    hide IsSource, Follows, NextPrecedence, Tightness, Printed, ReadExpr, ReadOperators, ReadKeyword, ReadCondition;
    hide Apply, Quoted, ReadName, IsName, FormOf;
    ForParts(e, rest);
    ForText(e, ind);
    SymbolText(e.args[0].value, ind);
    var name, elements, body := e.args[0].value.name, e.args[1].value, e.args[2].value;
    var more := Printed(body, ind) + rest;
    var values := Printed(elements, ind) + (") " + more);
    NameReads(name, " in " + values);
    CloseFollows(elements, ") " + more);
    PartReads(elements, ") " + more, ARGUMENT, ind);
    PartReads(body, rest, STATEMENT, ind);
    ForReads(name, Quoted(name), elements, more, values, body, rest, ind);
    ForTexts(Quoted(name), Printed(elements, ind), Printed(body, ind), rest);
    KeywordForm("for", " (" + (Quoted(name) + (" in " + values)), e, rest, low, ind);
  }

  lemma RepeatParts(e: Expr, rest: string)
    requires e.Call? && FormOf(e.function_, e.args) == Repeat && IsSource(e) && Follows(e, rest)
    ensures |e.args| == 1
    ensures var body := e.args[0].value;
            && e == Apply("repeat", [body]) && IsSource(body) && Tightness(body) >= STATEMENT
            && Follows(body, rest) && NextPrecedence(rest) == 0
  {
    FormParts(e);
    BodyFollows(e, rest);
    hide Follows, NextPrecedence, Tightness, IsSource;
    assert e.args == Unnamed([e.args[0].value]);
  }

  lemma {:induction false} RepeatReadsBack(e: Expr, rest: string, low: nat, ind: nat)
    requires e.Call? && FormOf(e.function_, e.args) == Repeat && IsSource(e) && Follows(e, rest)
    ensures ReadExpr(Printed(e, ind) + rest, low, ind) == ReadOperators(e, rest, low, ind)
    decreases e, 0
  {
    hide IsSource, Follows, NextPrecedence, Tightness, Printed, ReadExpr, ReadOperators, ReadKeyword, Apply, FormOf;
    RepeatParts(e, rest);
    RepeatText(e, ind);
    var body := Printed(e.args[0].value, ind);
    PartReads(e.args[0].value, rest, STATEMENT, ind);
    RepeatReads(body + rest, e.args[0].value, rest, ind);
    assert "repeat " == "repeat" + " ";
    Regroup("repeat", " ", body, rest);
    KeywordForm("repeat", " " + (body + rest), e, rest, low, ind);
  }

  lemma FunctionParts(e: Expr, rest: string)
    requires e.Call? && FormOf(e.function_, e.args) == FunctionDef && IsSource(e) && Follows(e, rest)
    ensures |e.args| == 2 && AreSourceFormals(e.args[0].value)
    ensures var body := e.args[1].value;
            && e == Apply("function", [e.args[0].value, body]) && IsSource(body) && Tightness(body) >= STATEMENT
            && Follows(body, rest) && NextPrecedence(rest) == 0
  {
    assert IsSourceCall(e);
    BodyFollows(e, rest);
    AllAreTight(e.args[1].value);
    hide Follows, NextPrecedence, Tightness, AreSourceFormals;
    assert e.args == Unnamed([e.args[0].value, e.args[1].value]);
  }

  lemma FunctionTexts(formals: string, body: string, rest: string)
    ensures "function(" + formals + ")" + " " + body + rest ==
              "function" + ("(" + (formals + (")" + (" " + (body + rest)))))
  {
    assert "function(" == "function" + "(";
    Regroup("function(" + formals + ")", " ", body, rest);
    Regroup("function(", formals, ")", " " + (body + rest));
  }

  lemma {:induction false} FunctionReadsBack(e: Expr, rest: string, low: nat, ind: nat)
    requires e.Call? && FormOf(e.function_, e.args) == FunctionDef && IsSource(e) && Follows(e, rest)
    ensures ReadExpr(Printed(e, ind) + rest, low, ind) == ReadOperators(e, rest, low, ind)
    decreases e, 0
  {
    hide IsSource, Follows, NextPrecedence, Tightness, Printed, ReadExpr, ReadOperators, ReadKeyword, ReadCondition;
    hide Apply, FormalsPart, AreSourceFormals, ReadFormals, FormOf;
    FunctionParts(e, rest);
    FunctionText(e, ind);
    var formals, body := e.args[0].value, e.args[1].value;
    var more := Printed(body, ind) + rest;
    FormalsReadBack(formals, " " + more, ind);
    PartReads(body, rest, STATEMENT, ind);
    var t := FormalsPart(formals, ind) + (")" + (" " + more));
    FunctionReads(t, formals, more, body, rest, ind);
    FunctionTexts(FormalsPart(formals, ind), Printed(body, ind), rest);
    KeywordForm("function", "(" + t, e, rest, low, ind);
  }

  // ----- Operators -----

  lemma UnaryParts(e: Expr, op: Token, rest: string)
    requires e.Call? && FormOf(e.function_, e.args) == Unary(op) && IsSource(e) && Follows(e, rest)
    ensures |e.args| == 1 && |op| == 1 && PrefixPrecedence(op) > 0
    ensures var operand := e.args[0].value;
            && e == Apply(op, [operand]) && IsSource(operand) && Tightness(operand) >= PrefixPrecedence(op)
            && Follows(operand, rest)
            && (NextPrecedence(rest) == 0 || NextPrecedence(rest) < PrefixPrecedence(op))
  {
    assert IsSourceCall(e) && LastPart(e) == Some(e.args[0].value) && Tightness(e) == PrefixPrecedence(op);
    hide IsSource, IsSourceCall, Tightness, LastPart;
    assert e.args == Unnamed([e.args[0].value]);
  }

  lemma {:induction false} UnaryReadsBack(e: Expr, op: Token, rest: string, low: nat, ind: nat)
    requires e.Call? && FormOf(e.function_, e.args) == Unary(op) && IsSource(e) && Follows(e, rest)
    ensures ReadExpr(Printed(e, ind) + rest, low, ind) == ReadOperators(e, rest, low, ind)
    decreases e, 0
  {
    hide IsSource, Follows, NextPrecedence, Tightness, Printed, ReadExpr, ReadOperators, Apply, FormOf;
    hide PrefixPrecedence;
    UnaryParts(e, op, rest);
    UnaryText(e, ind, op);
    var operand := e.args[0].value;
    PartReads(operand, rest, PrefixPrecedence(op), ind);
    PrefixReads(op, Printed(operand, ind) + rest, operand, rest, low, ind);
    assert op + Printed(operand, ind) + rest == op + (Printed(operand, ind) + rest);
  }

  lemma BinaryParts(e: Expr, op: Token)
    requires e.Call? && FormOf(e.function_, e.args) == Binary(op) && !IsTight(op) && IsSource(e)
    ensures |e.args| == 2 && Tightness(e) == Precedence(op) > 0
    ensures var left, right := e.args[0].value, e.args[1].value;
            && e == Apply(op, [left, right]) && IsSource(left) && IsSource(right)
            && OperandsFit(Precedence(op), left, right)
  {
    assert IsSourceCall(e);
    hide IsSource, IsSourceCall;
    assert e.args == Unnamed([e.args[0].value, e.args[1].value]);
  }

  /** The operator follows the left operand. */
  lemma OperatorFollows(left: Expr, right: Expr, op: string, t: string)
    requires Precedence(op) > 0 && OperandsFit(Precedence(op), left, right)
    ensures Follows(left, " " + (op + (" " + t)))
  {
    OperatorStands(op, t);
    var rest := " " + (op + (" " + t));
    assert NextPrecedence(rest) == Precedence(op);
    hide Precedence, Tightness, EndsInBody, EndsInIf, OperatorAt, NextPrecedence;
    if Skip(rest, " else ").Some? { ElseIsNoOperator(rest); }
  }

  /** What follows the operation follows its right operand. */
  lemma RightFollows(e: Expr, op: Token, rest: string)
    requires e.Call? && FormOf(e.function_, e.args) == Binary(op) && !IsTight(op) && |e.args| == 2
    requires Tightness(e) == Precedence(op) > 0 && Follows(e, rest)
    requires OperandsFit(Precedence(op), e.args[0].value, e.args[1].value)
    ensures Follows(e.args[1].value, rest)
    ensures var p, q := Precedence(op), NextPrecedence(rest);
            q == 0 || q < if RightToLeft(p) then p else p + 1
  {
    assert LastPart(e) == Some(e.args[1].value);
    hide Tightness, LastPart;
  }

  lemma OperandTexts(left: string, op: string, right: string, rest: string)
    ensures left + (" " + op + " ") + right + rest == left + (" " + (op + (" " + (right + rest))))
  {
    Regroup(left, " " + op + " ", right, rest);
    Regroup(" ", op, " ", right + rest);
  }

  lemma {:induction false} BinaryReadsBack(e: Expr, op: Token, rest: string, low: nat, ind: nat)
    requires e.Call? && FormOf(e.function_, e.args) == Binary(op) && !IsTight(op) && IsSource(e)
    requires Follows(e, rest) && low <= Tightness(e)
    ensures ReadExpr(Printed(e, ind) + rest, low, ind) == ReadOperators(e, rest, low, ind)
    decreases e, 0
  {
    BinaryParts(e, op);
    RightFollows(e, op, rest);
    SpacedText(e, ind, op);
    var left, right, p := e.args[0].value, e.args[1].value, Precedence(op);
    var t := Printed(right, ind) + rest;
    OperatorFollows(left, right, op, t);
    assert p <= Tightness(left) && (if RightToLeft(p) then p else p + 1) <= Tightness(right);
    hide IsSource, Follows, NextPrecedence, Tightness, Printed, ReadExpr, ReadOperators, ReadKeyword, ReadCondition;
    hide Apply, Precedence, IsTight, OperandsFit, FormOf;
    ExprReads(left, " " + (op + (" " + t)), low, ind);
    PartReads(right, rest, if RightToLeft(p) then p else p + 1, ind);
    InfixReads(left, op, t, right, rest, low, ind);
    OperandTexts(Printed(left, ind), op, Printed(right, ind), rest);
  }

  // ----- Primary expressions -----

  /** Reading a printed primary expression arrives at what stands behind it. */
  lemma {:induction false} PrimaryReads(e: Expr, rest: string, ind: nat)
    requires IsSource(e) && IsPrimary(e) && EndsWord(rest)
    ensures ReadFirst(Printed(e, ind) + rest, ind) == ReadPostfix(e, rest, ind)
    ensures Printed(e, ind) != "" && PrefixPrecedence([Printed(e, ind)[0]]) == 0
    decreases e, 1
  {
    if !e.Call? {
      if IsAtom(e) { AtomIsFirst(e, rest, ind); } else { ConstantReads(e, rest, ind); }
    } else {
      hide IsSource, Printed, PrefixPrecedence, ReadFirst, ReadPostfix, EndsWord;
      match FormOf(e.function_, e.args) {
        case Plain => PlainReadsBack(e, rest, ind);
        case Index(op) => IndexReadsBack(e, op, rest, ind);
        case Block => BlockReadsBack(e, rest, ind);
        case Paren => ParenReadsBack(e, rest, ind);
        case Word(op) => WordReadsBack(e, op, rest, ind);
        case Binary(op) => TightReadsBack(e, op, rest, ind);
      }
    }
  }

  lemma FirstOf(w: string, u: string)
    requires w != ""
    ensures w + u != "" && (w + u)[0] == w[0]
  {
  }

  lemma BracketTexts(f: string, open: string, items: string, close: string, rest: string)
    ensures f + open + items + close + rest == f + (open + (items + (close + rest)))
    ensures f != "" ==> f + open + items + close != "" && (f + open + items + close)[0] == f[0]
  {
  }

  lemma PlainParts(e: Expr)
    requires e.Call? && FormOf(e.function_, e.args) == Plain && IsSource(e)
    ensures IsSource(e.function_) && IsPrimary(e.function_) && AreSourceItems(e.args, 0)
  {
    assert IsSourceCall(e);
  }

  lemma {:induction false} PlainReadsBack(e: Expr, rest: string, ind: nat)
    requires e.Call? && FormOf(e.function_, e.args) == Plain && IsSource(e)
    ensures ReadFirst(Printed(e, ind) + rest, ind) == ReadPostfix(e, rest, ind)
    ensures Printed(e, ind) != "" && PrefixPrecedence([Printed(e, ind)[0]]) == 0
    decreases e, 0
  {
    PlainParts(e);
    PlainText(e, ind);
    PlainHasNoSyntax(e.function_, e.args);
    hide IsSource, IsPrimary, Printed, PrefixPrecedence, ReadFirst, ReadPostfix, Joined, ReadItems, HasSyntax, FormOf;
    hide AreSourceItems, ItemTexts;
    var f, items := Printed(e.function_, ind), Joined(ItemTexts(e.args, ind), 0, |e.args|, ", ");
    var t := items + (")" + rest);
    PrimaryReads(e.function_, "(" + t, ind);
    ItemListReads(e.args, 0, ")", rest, ind);
    assert e.args[0..] == e.args;
    CallReads(e.function_, t, e.args, rest, ind);
    BracketTexts(f, "(", items, ")", rest);
  }

  lemma IndexParts(e: Expr, op: Token)
    requires e.Call? && FormOf(e.function_, e.args) == Index(op) && IsSource(e)
    ensures e.function_ == Symbol(op) && |e.args| >= 1 && (op == "[" || op == "[[")
    ensures IsSource(e.args[0].value) && IsPrimary(e.args[0].value) && AreSourceItems(e.args, 1)
    ensures e.args == [Item("", e.args[0].value)] + e.args[1..]
  {
    assert IsSourceCall(e);
  }

  lemma {:induction false} IndexReadsBack(e: Expr, op: Token, rest: string, ind: nat)
    requires e.Call? && FormOf(e.function_, e.args) == Index(op) && IsSource(e)
    ensures ReadFirst(Printed(e, ind) + rest, ind) == ReadPostfix(e, rest, ind)
    ensures Printed(e, ind) != "" && PrefixPrecedence([Printed(e, ind)[0]]) == 0
    decreases e, 0
  {
    IndexParts(e, op);
    IndexText(e, ind, op);
    var close := if op == "[" then "]" else "]]";
    hide IsSource, IsPrimary, Printed, PrefixPrecedence, ReadFirst, ReadPostfix, Joined, ReadItems, FormOf;
    hide AreSourceItems, ItemTexts;
    var f, items := Printed(e.args[0].value, ind), Joined(ItemTexts(e.args, ind), 1, |e.args|, ", ");
    var t := items + (close + rest);
    PrimaryReads(e.args[0].value, op + t, ind);
    ItemListReads(e.args, 1, close, rest, ind);
    IndexReads(e.args[0].value, op, t, e.args[1..], rest, ind);
    BracketTexts(f, op, items, close, rest);
  }

  lemma BlockParts(e: Expr)
    requires e.Call? && FormOf(e.function_, e.args) == Block && IsSource(e)
    ensures forall i | 0 <= i < |e.args| :: IsSource(e.args[i].value)
    ensures e == Apply("{", ValuesFrom(e.args, 0))
  {
    assert IsSourceCall(e);
    assert e.args == Unnamed(ValuesFrom(e.args, 0));
  }

  lemma BlockTexts(e: Expr, rest: string, ind: nat)
    requires e.Call? && FormOf(e.function_, e.args) == Block
    ensures Printed(e, ind) + rest == "{" + StatementsAfter(e.args, 0, rest, ind)
    ensures Printed(e, ind) != "" && Printed(e, ind)[0] == '{'
  {
    BlockText(e, ind);
    hide Printed, Joined, FormOf, NewLine, StatementTexts;
    var statements, end := Joined(StatementTexts(e.args, ind + 1), 0, |e.args|, ""), NewLine(ind) + "}";
    BracketTexts("", "{", statements, end, rest);
    BracketTexts("{", "", statements, end, "");
    assert "" + "{" == "{" && "{" + "" == "{";
  }

  lemma {:induction false} BlockReadsBack(e: Expr, rest: string, ind: nat)
    requires e.Call? && FormOf(e.function_, e.args) == Block && IsSource(e)
    ensures ReadFirst(Printed(e, ind) + rest, ind) == ReadPostfix(e, rest, ind)
    ensures Printed(e, ind) != "" && PrefixPrecedence([Printed(e, ind)[0]]) == 0
    decreases e, 0
  {
    hide IsSource, Printed, ReadFirst, ReadPostfix, ReadStatements, FormOf, ValuesFrom, Apply, StatementsAfter;
    BlockParts(e);
    BlockTexts(e, rest, ind);
    StatementsReadBack(e.args, 0, rest, ind);
    BlockReads(StatementsAfter(e.args, 0, rest, ind), ValuesFrom(e.args, 0), rest, ind);
  }

  lemma {:induction false} ParenReadsBack(e: Expr, rest: string, ind: nat)
    requires e.Call? && FormOf(e.function_, e.args) == Paren && IsSource(e)
    ensures ReadFirst(Printed(e, ind) + rest, ind) == ReadPostfix(e, rest, ind)
    ensures Printed(e, ind) != "" && PrefixPrecedence([Printed(e, ind)[0]]) == 0
    decreases e, 0
  {
    assert IsSourceCall(e) && e.function_ == Symbol("(") && |e.args| == 1;
    ParenText(e, ind);
    var inner := e.args[0].value;
    AllAreTight(inner);
    assert e.args == Unnamed([inner]);
    hide IsSource, IsSourceCall, Printed, ReadFirst, ReadPostfix, ReadExpr, FormOf, Follows, Tightness, NextPrecedence;
    CloseFollows(inner, ")" + rest);
    PartReads(inner, ")" + rest, STATEMENT, ind);
    ParenReads(Printed(inner, ind) + (")" + rest), inner, rest, ind);
    Regroup("(", Printed(inner, ind), ")", rest);
    assert Printed(e, ind)[0] == '(';
  }

  lemma WordReadsBack(e: Expr, op: Token, rest: string, ind: nat)
    requires e.Call? && FormOf(e.function_, e.args) == Word(op) && EndsWord(rest)
    ensures ReadFirst(Printed(e, ind) + rest, ind) == ReadPostfix(e, rest, ind)
    ensures Printed(e, ind) != "" && PrefixPrecedence([Printed(e, ind)[0]]) == 0
  {
    WordText(e, ind, op);
    assert e.function_ == Symbol(op) && e.args == Unnamed([]) && (op == "break" || op == "next");
    hide Printed, ReadFirst, ReadPostfix, FormOf;
    WordReads(op, rest, ind);
  }

  lemma TightParts(e: Expr, op: Token)
    requires e.Call? && FormOf(e.function_, e.args) == Binary(op) && IsTight(op) && IsSource(e)
    ensures |e.args| == 2
    ensures var left, right := e.args[0].value, e.args[1].value;
            && e == Apply(op, [left, right]) && IsSource(left) && IsSource(right) && IsAtom(right) && IsPrimary(left)
  {
    assert IsSourceCall(e);
    hide IsSource, IsSourceCall;
    assert e.args == Unnamed([e.args[0].value, e.args[1].value]);
  }

  lemma TightTexts(l: string, op: string, r: string, rest: string)
    ensures l + op + r + rest == l + (op + (r + rest))
    ensures l != "" ==> l + op + r != "" && (l + op + r)[0] == l[0]
    ensures r != "" ==> r + rest != "" && (r + rest)[0] == r[0]
  {
  }

  lemma {:induction false} TightReadsBack(e: Expr, op: Token, rest: string, ind: nat)
    requires e.Call? && FormOf(e.function_, e.args) == Binary(op) && IsTight(op) && IsSource(e) && EndsWord(rest)
    ensures ReadFirst(Printed(e, ind) + rest, ind) == ReadPostfix(e, rest, ind)
    ensures Printed(e, ind) != "" && PrefixPrecedence([Printed(e, ind)[0]]) == 0
    decreases e, 0
  {
    TightParts(e, op);
    TightText(e, ind, op);
    var left, right := e.args[0].value, e.args[1].value;
    AtomReads(right, rest, ind);
    var l, r := Printed(left, ind), Printed(right, ind);
    hide IsSource, Printed, PrefixPrecedence, ReadFirst, ReadPostfix, ReadAtom, FormOf, IsAtom, IsPrimary, Apply;
    TightTexts(l, op, r, rest);
    PrimaryReads(left, op + (r + rest), ind);
    TightReads(left, op, r + rest, right, rest, ind);
  }

  // ----- Lists -----

  predicate IsSourceItem(item: Item) {
    (item.name == "" || IsName(item.name)) && IsSourceValue(item.value)
  }

  /** A value, which can be missing, in front of a comma or a closing bracket. */
  lemma {:induction false} ValueReadsBack(e: Expr, rest: string, ind: nat)
    requires IsSourceValue(e) && rest != "" && rest[0] in ",)]"
    ensures ReadValue(Printed(e, ind) + rest, ind) == Some(Reading(e, rest))
    ensures !IsMissing(e) ==> (Printed(e, ind) + rest)[0] !in ",)]["
    decreases e, 5
  {
    if IsMissing(e) {
      SymbolText(e, ind);
      assert Printed(e, ind) + rest == rest;
    } else {
      CloseFollows(e, rest);
      hide IsSource, Printed, ReadExpr, Follows, Tightness, NextPrecedence;
      PartReads(e, rest, ARGUMENT, ind);
      SomeExpr(Printed(e, ind) + rest, ARGUMENT, ind);
    }
  }

  lemma BareItemReads(t: string, e: Expr, rest: string, ind: nat)
    requires ReadValue(t, ind) == Some(Reading(e, rest)) && rest != "" && rest[0] in ",)]"
    ensures ReadItem(t, ind) == Some(Reading(Item("", e), rest))
  {
    assert Skip(rest, " = ").None?;
    hide ReadValue, Skip;
  }

  lemma NamedItemReads(t: string, name: string, value: string, e: Expr, rest: string, ind: nat)
    requires ReadValue(t, ind) == Some(Reading(Symbol(name), " = " + value)) && name != ""
    requires ReadValue(value, ind) == Some(Reading(e, rest))
    ensures ReadItem(t, ind) == Some(Reading(Item(name, e), rest))
  {
    Skips(" = ", value);
    hide ReadValue, Skip;
  }

  lemma ItemTextIs(item: Item, rest: string, ind: nat)
    ensures ItemText(item, ind) + rest ==
              if item.name == "" then Printed(item.value, ind) + rest
              else Quoted(item.name) + (" = " + (Printed(item.value, ind) + rest))
  {
    hide Printed, Quoted;
    if item.name == "" {
      assert "" + Printed(item.value, ind) == Printed(item.value, ind);
    } else {
      var n, v := Quoted(item.name), Printed(item.value, ind);
      assert n + " = " + v + rest == n + (" = " + (v + rest));
    }
  }

  lemma {:induction false} ItemReadsBack(item: Item, rest: string, ind: nat)
    requires IsSourceItem(item) && rest != "" && rest[0] in ",)]"
    ensures ReadItem(ItemText(item, ind) + rest, ind) == Some(Reading(item, rest))
    ensures ItemText(item, ind) + rest != ""
    ensures item.name != "" || !IsMissing(item.value) ==> (ItemText(item, ind) + rest)[0] !in ",)]["
    decreases item
  {
    ValueReadsBack(item.value, rest, ind);
    ItemTextIs(item, rest, ind);
    hide IsSourceValue, Printed, ReadValue, Quoted, ReadItem, ItemText, IsName;
    var value := Printed(item.value, ind) + rest;
    if item.name == "" {
      BareItemReads(value, item.value, rest, ind);
    } else {
      NamedReads(item.name, value, ind);
      NamedItemReads(Quoted(item.name) + (" = " + value), item.name, value, item.value, rest, ind);
    }
  }

  lemma EqualsFollows(name: string, value: string)
    ensures Follows(Symbol(name), " = " + value) && NextPrecedence(" = " + value) == STATEMENT
  {
    var rest := " = " + value;
    assert rest == " " + ("=" + (" " + value));
    OperatorStands("=", value);
    hide OperatorAt;
  }

  /** A name in front of an equals sign. */
  lemma NamedReads(name: string, value: string, ind: nat)
    requires IsName(name)
    ensures ReadValue(Quoted(name) + (" = " + value), ind) == Some(Reading(Symbol(name), " = " + value))
    ensures Quoted(name) + (" = " + value) != "" && (Quoted(name) + (" = " + value))[0] !in ",)]["
  {
    var e, rest := Symbol(name), " = " + value;
    SymbolText(e, ind);
    EqualsFollows(name, value);
    assert IsSource(e) && IsAtom(e) && CanFollow(rest);
    hide ReadExpr, Quoted, Printed, IsSource, IsAtom, Follows, NextPrecedence, IsName, ReadOperators, ReadFirst;
    hide ReadPostfix, PrefixPrecedence, EndsWord, CanFollow;
    FollowersEndWords(rest);
    AtomIsFirst(e, rest, ind);
    FirstThenOperators(e, rest, ARGUMENT, ind);
    Stops(e, rest, ARGUMENT, ind);
    SomeExpr(Quoted(name) + rest, ARGUMENT, ind);
  }

  /** Taking a list of pieces apart. */
  lemma PieceThen(pieces: seq<string>, i: nat, n: nat, between: string, tail: string)
    requires i < n <= |pieces|
    ensures Joined(pieces, i, n, between) + tail ==
              pieces[i] + (if i + 1 < n then between + (Joined(pieces, i + 1, n, between) + tail) else tail)
  {
    var more := Joined(pieces, i + 1, n, between);
    if i + 1 < n {
      assert pieces[i] + between + more + tail == pieces[i] + (between + (more + tail));
    } else {
      assert pieces[i] + "" + "" + tail == pieces[i] + tail;
    }
  }

  /** The pieces from i on with commas between them, and the end. */
  function ListText(pieces: seq<string>, i: nat, end: string): string
    requires i <= |pieces|
  {
    Joined(pieces, i, |pieces|, ", ") + end
  }

  /** What stands behind the first i pieces. */
  function ListAfter(pieces: seq<string>, i: nat, end: string): (t: string)
    requires i <= |pieces|
    ensures i == |pieces| ==> t == end
    ensures i < |pieces| ==> t == ", " + ListText(pieces, i, end) && t != "" && t[0] == ','
  {
    if i == |pieces| then end else ", " + ListText(pieces, i, end)
  }

  lemma FirstPiece(pieces: seq<string>, i: nat, end: string)
    requires i < |pieces|
    ensures ListText(pieces, i, end) == pieces[i] + ListAfter(pieces, i + 1, end)
  {
    PieceThen(pieces, i, |pieces|, ", ", end);
    hide Joined;
  }

  lemma ItemPiece(items: seq<Item>, i: nat, ind: nat, end: string)
    requires i < |items|
    ensures ListText(ItemTexts(items, ind), i, end) ==
              ItemText(items[i], ind) + ListAfter(ItemTexts(items, ind), i + 1, end)
  {
    FirstPiece(ItemTexts(items, ind), i, end);
    hide ItemText, ListText, ListAfter;
    assert ItemTexts(items, ind)[i] == ItemText(items[i], ind);
  }

  lemma FormalPiece(items: seq<Item>, i: nat, ind: nat, end: string)
    requires i < |items|
    ensures ListText(FormalTexts(items, ind), i, end) ==
              FormalText(items[i], ind) + ListAfter(FormalTexts(items, ind), i + 1, end)
  {
    FirstPiece(FormalTexts(items, ind), i, end);
    hide FormalText, ListText, ListAfter;
    assert FormalTexts(items, ind)[i] == FormalText(items[i], ind);
  }

  lemma Tail(items: seq<Item>, i: nat)
    requires i < |items|
    ensures items[i..] == [items[i]] + items[i + 1..]
    ensures i + 1 == |items| ==> items[i..] == [items[i]]
  {
  }

  predicate IsClose(close: string) { close == ")" || close == "]" || close == "]]" }

  lemma ItemsStep(text: string, item: Item, more: string, items: seq<Item>, close: string, rest: string, ind: nat)
    requires ReadItem(text, ind) == Some(Reading(item, ", " + more)) && IsClose(close)
    requires ReadMoreItems(more, close, ind) == Some(Reading(items, rest))
    ensures ReadMoreItems(text, close, ind) == Some(Reading([item] + items, rest))
  {
    Skips(", ", more);
    assert (", " + more)[0] == ',' && Skip(", " + more, close).None?;
    hide ReadItem, Skip;
  }

  lemma ItemsEnd(text: string, item: Item, close: string, rest: string, ind: nat)
    requires ReadItem(text, ind) == Some(Reading(item, Closing(close, rest)))
    ensures ReadMoreItems(text, close, ind) == Some(Reading([item], rest))
  {
    Skips(close, rest);
    hide ReadItem, Skip;
  }

  /** The closing bracket and what stands behind it. */
  function Closing(close: string, rest: string): (t: string)
    ensures IsClose(close) ==> t != "" && t[0] == close[0] && t[0] in ")]"
  {
    close + rest
  }

  lemma {:induction false} ItemsReadBack(items: seq<Item>, i: nat, close: string, rest: string, ind: nat)
    requires i < |items| && (forall k | i <= k < |items| :: IsSourceItem(items[k])) && IsClose(close)
    ensures ReadMoreItems(ListText(ItemTexts(items, ind), i, Closing(close, rest)), close, ind) ==
              Some(Reading(items[i..], rest))
    decreases items, |items| - i
  {
    hide IsSourceItem, ItemText, ReadItem, ReadMoreItems, ItemTexts, ListText, ListAfter, Closing, IsClose;
    var pieces, end := ItemTexts(items, ind), Closing(close, rest);
    ItemPiece(items, i, ind, end);
    ItemReadsBack(items[i], ListAfter(pieces, i + 1, end), ind);
    Tail(items, i);
    if i + 1 < |items| {
      ItemsReadBack(items, i + 1, close, rest, ind);
      ItemsStep(ListText(pieces, i, end), items[i], ListText(pieces, i + 1, end), items[i + 1..], close, rest, ind);
    } else {
      ItemsEnd(ListText(pieces, i, end), items[i], close, rest, ind);
    }
  }

  lemma ItemsAre(items: seq<Item>, from: nat)
    requires from <= |items| && AreSourceItems(items, from)
    ensures forall k | from <= k < |items| :: IsSourceItem(items[k])
    ensures |items| == from + 1 ==> items[from].name != "" || !IsMissing(items[from].value)
  {
  }

  /** A list of arguments with its closing bracket; it does not start with `[`. */
  lemma {:induction false} ItemListReads(items: seq<Item>, from: nat, close: string, rest: string, ind: nat)
    requires from <= |items| && AreSourceItems(items, from) && IsClose(close)
    ensures var t := Joined(ItemTexts(items, ind), from, |items|, ", ") + (close + rest);
            ReadItems(t, close, ind) == Some(Reading(items[from..], rest)) && t != "" && t[0] != '['
    decreases items, |items| + 1
  {
    ItemsAre(items, from);
    assert Joined(ItemTexts(items, ind), from, |items|, ", ") + (close + rest) ==
      ListText(ItemTexts(items, ind), from, Closing(close, rest));
    if from == |items| {
      NoItems(items, close, rest, ind);
    } else {
      hide ReadMoreItems, AreSourceItems, IsSourceItem, Joined, ItemTexts, IsMissing, ListText, Closing, ReadItems;
      ItemsReadBack(items, from, close, rest, ind);
      ListStarts(items, from, close, rest, ind);
      SomeItems(ListText(ItemTexts(items, ind), from, Closing(close, rest)), close, ind);
    }
  }

  lemma NoItems(items: seq<Item>, close: string, rest: string, ind: nat)
    requires IsClose(close)
    ensures var t := Joined(ItemTexts(items, ind), |items|, |items|, ", ") + (close + rest);
            ReadItems(t, close, ind) == Some(Reading(items[|items|..], rest)) && t != "" && t[0] != '['
  {
    EndOfPieces(ItemTexts(items, ind), |items|, ", ");
    hide Joined, ItemTexts, ReadMoreItems;
    assert "" + (close + rest) == close + rest && items[|items|..] == [];
    Skips(close, rest);
    hide Skip;
  }

  lemma SomeItems(t: string, close: string, ind: nat)
    requires IsClose(close) && t != "" && t[0] !in ")]["
    ensures ReadItems(t, close, ind) == ReadMoreItems(t, close, ind)
  {
    assert Skip(t, close).None?;
    hide Skip, ReadMoreItems;
  }

  /** The first character of a list that is not empty. */
  lemma {:induction false} ListStarts(items: seq<Item>, from: nat, close: string, rest: string, ind: nat)
    requires from < |items| && IsClose(close) && IsSourceItem(items[from])
    requires |items| == from + 1 ==> items[from].name != "" || !IsMissing(items[from].value)
    ensures var t := ListText(ItemTexts(items, ind), from, Closing(close, rest)); t != "" && t[0] !in ")]["
    decreases items, |items|
  {
    hide ItemTexts, ReadItem, IsSourceItem, ItemText, ListText, ListAfter, Closing, IsClose, IsMissing;
    var after := ListAfter(ItemTexts(items, ind), from + 1, Closing(close, rest));
    ItemPiece(items, from, ind, Closing(close, rest));
    ItemReadsBack(items[from], after, ind);
    if items[from].name == "" && IsMissing(items[from].value) { MissingText(items[from], after, ind); }
  }

  lemma MissingText(item: Item, rest: string, ind: nat)
    requires item.name == "" && IsMissing(item.value)
    ensures ItemText(item, ind) + rest == rest
  {
    hide Printed, Quoted, ItemText;
    NoName();
    SymbolText(item.value, ind);
    ItemTextIs(item, rest, ind);
    assert "" + rest == rest;
  }

  lemma NoName()
    ensures Quoted("") == ""
  {
  }

  function ValuesFrom(args: seq<Item>, i: nat): seq<Expr>
    requires i <= |args|
  {
    seq(|args| - i, k requires 0 <= k < |args| - i => args[i + k].value)
  }

  lemma {:induction false} StatementReadsBack(e: Expr, more: string, values: seq<Expr>, rest: string, ind: nat)
    requires IsSource(e) && more != "" && more[0] == '\n'
    requires ReadStatements(more, ind) == Some(Reading(values, rest))
    ensures ReadStatements(NewLine(ind + 1) + (Printed(e, ind + 1) + more), ind) == Some(Reading([e] + values, rest))
    decreases e, 5
  {
    AllAreTight(e);
    CloseFollows(e, more);
    hide NewLine, Printed, IsSource, Follows, NextPrecedence, Tightness, ReadExpr, ReadStatements;
    PartReads(e, more, STATEMENT, ind + 1);
    StatementStep(e, Printed(e, ind + 1) + more, more, values, rest, ind);
  }

  lemma StatementPiece(args: seq<Item>, i: nat, more: string, ind: nat)
    requires i < |args|
    ensures Joined(StatementTexts(args, ind), i, |args|, "") + more ==
              NewLine(ind) +
              (Printed(args[i].value, ind) + (Joined(StatementTexts(args, ind), i + 1, |args|, "") + more))
  {
    var pieces := StatementTexts(args, ind);
    PieceThen(pieces, i, |args|, "", more);
    hide NewLine, Printed;
    assert pieces[i] == NewLine(ind) + Printed(args[i].value, ind);
    hide StatementTexts, Joined;
    var tail := Joined(pieces, i + 1, |args|, "") + more;
    if i + 1 == |args| {
      assert Joined(pieces, i + 1, |args|, "") == "" by { EndOfPieces(pieces, i + 1, ""); }
      assert tail == more;
    }
    LineText(NewLine(ind), Printed(args[i].value, ind), tail, pieces[i] + tail);
    assert "" + tail == tail;
  }

  lemma EndOfPieces(pieces: seq<string>, i: nat, between: string)
    requires i >= |pieces|
    ensures Joined(pieces, i, |pieces|, between) == ""
  {
  }

  lemma BlockEnds(rest: string, ind: nat)
    ensures ReadStatements(NewLine(ind) + "}" + rest, ind) == Some(Reading([], rest))
  {
    hide NewLine, ReadExpr;
    Skips(NewLine(ind) + "}", rest);
    hide Skip;
  }

  function StatementsAfter(args: seq<Item>, i: nat, rest: string, ind: nat): (t: string)
    requires i <= |args|
    ensures t != "" && t[0] == '\n'
  {
    LineStarts(args, i, NewLine(ind) + "}" + rest, ind);
    Joined(StatementTexts(args, ind + 1), i, |args|, "") + (NewLine(ind) + "}" + rest)
  }

  lemma AfterLast(args: seq<Item>, rest: string, ind: nat)
    ensures StatementsAfter(args, |args|, rest, ind) == NewLine(ind) + "}" + rest
    ensures ValuesFrom(args, |args|) == []
  {
    EndOfPieces(StatementTexts(args, ind + 1), |args|, "");
    hide Joined, StatementTexts, NewLine;
    assert "" + (NewLine(ind) + "}" + rest) == NewLine(ind) + "}" + rest;
  }

  lemma AfterStatement(args: seq<Item>, i: nat, rest: string, ind: nat)
    requires i < |args|
    ensures StatementsAfter(args, i, rest, ind) ==
              NewLine(ind + 1) + (Printed(args[i].value, ind + 1) + StatementsAfter(args, i + 1, rest, ind))
  {
    hide Joined, StatementTexts, NewLine, Printed;
    StatementPiece(args, i, NewLine(ind) + "}" + rest, ind + 1);
  }

  lemma ValuesStep(args: seq<Item>, i: nat)
    requires i < |args|
    ensures ValuesFrom(args, i) == [args[i].value] + ValuesFrom(args, i + 1)
  {
  }

  lemma {:induction false} StatementsReadBack(args: seq<Item>, i: nat, rest: string, ind: nat)
    requires i <= |args| && forall k | 0 <= k < |args| :: IsSource(args[k].value)
    ensures ReadStatements(StatementsAfter(args, i, rest, ind), ind) == Some(Reading(ValuesFrom(args, i), rest))
    decreases args, |args| - i
  {
    hide NewLine, Printed, IsSource, ReadStatements, StatementsAfter, ValuesFrom;
    if i == |args| {
      AfterLast(args, rest, ind);
      BlockEnds(rest, ind);
    } else {
      AfterStatement(args, i, rest, ind);
      ValuesStep(args, i);
      StatementsReadBack(args, i + 1, rest, ind);
      StatementReadsBack(args[i].value, StatementsAfter(args, i + 1, rest, ind), ValuesFrom(args, i + 1), rest, ind);
    }
  }

  lemma LineText(line: string, statement: string, more: string, t: string)
    requires t == line + statement + more
    ensures t == line + (statement + more)
  {
  }

  /** What stands behind a statement starts with a line break. */
  lemma LineStarts(args: seq<Item>, i: nat, more: string, ind: nat)
    requires i <= |args| && more != "" && more[0] == '\n'
    ensures var t := Joined(StatementTexts(args, ind + 1), i, |args|, "") + more; t != "" && t[0] == '\n'
  {
    if i < |args| {
      PieceThen(StatementTexts(args, ind + 1), i, |args|, "", more);
      assert StatementTexts(args, ind + 1)[i][0] == '\n';
      hide Joined, StatementTexts;
    }
  }

  lemma StatementStep(e: Expr, t: string, more: string, values: seq<Expr>, rest: string, ind: nat)
    requires ReadExpr(t, STATEMENT, ind + 1) == Some(Reading(e, more))
    requires ReadStatements(more, ind) == Some(Reading(values, rest))
    ensures ReadStatements(NewLine(ind + 1) + t, ind) == Some(Reading([e] + values, rest))
  {
    var u := NewLine(ind + 1) + t;
    assert Skip(u, NewLine(ind) + "}").None? by {
      assert u[2 * ind + 1] == ' ' && (NewLine(ind) + "}")[2 * ind + 1] == '}';
    }
    Skips(NewLine(ind + 1), t);
    hide ReadExpr, NewLine, Skip;
  }

  // ----- Formals -----

  predicate IsSourceFormal(item: Item) { IsName(item.name) && IsSourceValue(item.value) }

  lemma BareFormalReads(text: string, name: string, rest: string, ind: nat)
    requires ReadName(text) == Some(Reading(name, rest)) && rest != "" && rest[0] in ",)"
    ensures ReadFormal(text, ind) == Some(Reading(Item(name, Symbol("")), rest))
  {
    assert Skip(rest, " = ").None?;
    hide ReadName, Skip;
  }

  lemma DefaultReads(text: string, name: string, value: string, e: Expr, rest: string, ind: nat)
    requires ReadName(text) == Some(Reading(name, " = " + value))
    requires ReadExpr(value, ARGUMENT, ind) == Some(Reading(e, rest))
    ensures ReadFormal(text, ind) == Some(Reading(Item(name, e), rest))
  {
    Skips(" = ", value);
    hide ReadName, ReadExpr, Skip;
  }

  lemma FormalTextIs(item: Item, rest: string, ind: nat)
    ensures FormalText(item, ind) + rest ==
              Quoted(item.name) +
              (if IsMissing(item.value) then rest else " = " + (Printed(item.value, ind) + rest))
  {
    hide Printed, Quoted;
    if IsMissing(item.value) {
      assert Quoted(item.name) + "" == Quoted(item.name);
    } else {
      var n, v := Quoted(item.name), Printed(item.value, ind);
      assert n + (" = " + v) + rest == n + (" = " + (v + rest));
    }
  }

  lemma {:induction false} FormalReadsBack(item: Item, rest: string, ind: nat)
    requires IsSourceFormal(item) && rest != "" && rest[0] in ",)"
    ensures ReadFormal(FormalText(item, ind) + rest, ind) == Some(Reading(item, rest))
    ensures FormalText(item, ind) + rest != "" && (FormalText(item, ind) + rest)[0] != ')'
    decreases item
  {
    var text := FormalText(item, ind) + rest;
    FormalTextIs(item, rest, ind);
    hide Printed, Quoted, ReadName, ReadExpr, ReadFormal, FormalText, IsSource, Follows, NextPrecedence, IsName, IsWord;
    hide Tightness;
    if IsMissing(item.value) {
      NameReads(item.name, rest);
      FirstOf(Quoted(item.name), rest);
      NameStarts(item.name);
      BareFormalReads(text, item.name, rest, ind);
    } else {
      var value := Printed(item.value, ind) + rest;
      NameReads(item.name, " = " + value);
      FirstOf(Quoted(item.name), " = " + value);
      NameStarts(item.name);
      CloseFollows(item.value, rest);
      PartReads(item.value, rest, ARGUMENT, ind);
      DefaultReads(text, item.name, value, item.value, rest, ind);
    }
  }

  lemma FormalsStep(text: string, item: Item, more: string, items: seq<Item>, rest: string, ind: nat)
    requires ReadFormal(text, ind) == Some(Reading(item, ", " + more))
    requires ReadMoreFormals(more, ind) == Some(Reading(items, rest))
    ensures ReadMoreFormals(text, ind) == Some(Reading([item] + items, rest))
  {
    Skips(", ", more);
    assert (", " + more)[0] == ',' && Skip(", " + more, ")").None?;
    hide ReadFormal, Skip;
  }

  lemma FormalsEnd(text: string, item: Item, rest: string, ind: nat)
    requires ReadFormal(text, ind) == Some(Reading(item, Closing(")", rest)))
    ensures ReadMoreFormals(text, ind) == Some(Reading([item], rest))
  {
    Skips(")", rest);
    hide ReadFormal, Skip;
  }

  lemma {:induction false} MoreFormalsReadBack(items: seq<Item>, i: nat, rest: string, ind: nat)
    requires i < |items| && forall k | 0 <= k < |items| :: IsSourceFormal(items[k])
    ensures var t := ListText(FormalTexts(items, ind), i, Closing(")", rest));
            ReadMoreFormals(t, ind) == Some(Reading(items[i..], rest)) && t != "" && t[0] != ')'
    decreases items, |items| - i
  {
    hide IsSourceFormal, FormalText, ReadFormal, FormalTexts, ReadMoreFormals, ListText, ListAfter, Closing;
    var pieces, end := FormalTexts(items, ind), Closing(")", rest);
    FormalPiece(items, i, ind, end);
    FormalReadsBack(items[i], ListAfter(pieces, i + 1, end), ind);
    Tail(items, i);
    if i + 1 < |items| {
      MoreFormalsReadBack(items, i + 1, rest, ind);
      FormalsStep(ListText(pieces, i, end), items[i], ListText(pieces, i + 1, end), items[i + 1..], rest, ind);
    } else {
      FormalsEnd(ListText(pieces, i, end), items[i], rest, ind);
    }
  }

  lemma {:induction false} FormalsReadBack(formals: Expr, rest: string, ind: nat)
    requires AreSourceFormals(formals)
    ensures ReadFormals(FormalsPart(formals, ind) + (")" + rest), ind) == Some(Reading(formals, rest))
    decreases formals
  {
    Skips(")", rest);
    if formals.PairList? {
      var items := formals.items;
      assert forall k | 0 <= k < |items| :: IsSourceFormal(items[k]);
      MoreFormalsReadBack(items, 0, rest, ind);
      assert FormalsPart(formals, ind) + (")" + rest) == ListText(FormalTexts(items, ind), 0, Closing(")", rest));
      hide ReadMoreFormals, ListText, FormalTexts, Joined, AreSourceFormals, IsSourceFormal;
      assert items[0..] == items;
    } else {
      assert FormalsPart(formals, ind) + (")" + rest) == ")" + rest;
    }
  }
}
