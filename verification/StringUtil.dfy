/** Escaping and quoting of R strings and identifiers. */
module StringUtil {

  const BACKSPACE: char := '\U{0008}'
  const FORM_FEED: char := '\U{000C}'

  /** The letter after the backslash, for the characters that are always escaped. */
  function EscapeLetter(c: char): string {
    if c == BACKSPACE then "b" else if c == '\t' then "t" else if c == '\n' then "n"
    else if c == FORM_FEED then "f" else if c == '\r' then "r" else if c == '\\' then "\\" else ""
  }

  function EscapeChar(c: char, alsoEscape: string): string {
    if EscapeLetter(c) != "" then "\\" + EscapeLetter(c)
    else if c in alsoEscape then ['\\', c]
    else [c]
  }

  function Escaped(s: string, alsoEscape: string): string {
    if s == "" then "" else Escaped(s[..|s| - 1], alsoEscape) + EscapeChar(s[|s| - 1], alsoEscape)
  }

  lemma EscapedStep(s: string, i: nat, alsoEscape: string)
    requires i < |s|
    ensures Escaped(s[..i + 1], alsoEscape) == Escaped(s[..i], alsoEscape) + EscapeChar(s[i], alsoEscape)
  {
    hide EscapeChar;
    assert s[..i + 1][..i] == s[..i];
  }

  method Escape(s: string, alsoEscape: string) returns (t: string)
    ensures t == Escaped(s, alsoEscape)
  {
    t := "";
    for i := 0 to |s|
      invariant t == Escaped(s[..i], alsoEscape)
    {
      EscapedStep(s, i, alsoEscape);
      hide Escaped;
      var letter := EscapeLetter(s[i]);
      if letter != "" {
        t := t + ("\\" + letter);
      } else {
        var c := EscapeOther(s[i], alsoEscape);
        t := t + c;
      }
    }
    assert s[..|s|] == s;
  }

  /** A character that is escaped only when it is one of the given ones. */
  method EscapeOther(c: char, alsoEscape: string) returns (t: string)
    ensures t == if c in alsoEscape then ['\\', c] else [c]
  {
    t := "";
    for j := 0 to |alsoEscape|
      invariant t == "" && c !in alsoEscape[..j]
    {
      if c == alsoEscape[j] {
        t := "\\";
        break;
      }
    }
    t := t + [c];
  }

  /** Reads an escaped text back. */
  function Unescaped(t: string): string {
    if t == "" then ""
    else if t[0] == '\\' && |t| >= 2 then
      (if t[1] == 'b' then [BACKSPACE] else if t[1] == 't' then "\t" else if t[1] == 'n' then "\n"
       else if t[1] == 'f' then [FORM_FEED] else if t[1] == 'r' then "\r" else [t[1]]) + Unescaped(t[2..])
    else [t[0]] + Unescaped(t[1..])
  }

  lemma EscapeCharInverts(c: char, alsoEscape: string, rest: string)
    requires forall d <- alsoEscape :: d !in "btnfr"
    ensures Unescaped(EscapeChar(c, alsoEscape) + rest) == [c] + Unescaped(rest)
  {
    if EscapeLetter(c) != "" || c in alsoEscape {
      EscapedPair(c, EscapeChar(c, alsoEscape)[1], rest);
    } else {
      assert EscapeChar(c, alsoEscape) == [c] && ([c] + rest)[1..] == rest;
    }
  }

  lemma EscapedPair(c: char, letter: char, rest: string)
    requires if EscapeLetter(c) != "" then EscapeLetter(c) == [letter] else letter == c && c !in "btnfr"
    ensures Unescaped(['\\', letter] + rest) == [c] + Unescaped(rest)
  {
    var t := ['\\', letter] + rest;
    assert t[2..] == rest && t[0] == '\\' && t[1] == letter;
  }

  /** Escaping loses nothing. */
  lemma {:induction false} EscapeInverts(s: string, alsoEscape: string, rest: string)
    requires forall c <- alsoEscape :: c !in "btnfr"
    ensures Unescaped(Escaped(s, alsoEscape) + rest) == s + Unescaped(rest)
  {
    hide Unescaped, EscapeChar;
    if s == "" {
      assert Escaped(s, alsoEscape) + rest == rest;
    } else {
      var front, c := s[..|s| - 1], s[|s| - 1];
      var e := EscapeChar(c, alsoEscape);
      assert Escaped(s, alsoEscape) + rest == Escaped(front, alsoEscape) + (e + rest);
      EscapeInverts(front, alsoEscape, e + rest);
      EscapeCharInverts(c, alsoEscape, rest);
      assert s + Unescaped(rest) == front + ([c] + Unescaped(rest));
    }
  }

  lemma EscapeCharIsOneLine(c: char, alsoEscape: string)
    ensures '\n' !in EscapeChar(c, alsoEscape)
  {
  }

  lemma {:induction false} EscapedIsOneLine(s: string, alsoEscape: string)
    ensures '\n' !in Escaped(s, alsoEscape)
  {
    hide EscapeChar;
    if s != "" {
      EscapedIsOneLine(s[..|s| - 1], alsoEscape);
      EscapeCharIsOneLine(s[|s| - 1], alsoEscape);
    }
  }

  // The constants as written: quotes and backquotes are what the printer also escapes.
  const QUOTES := "\"'"
  const BACKQUOTE := "`"

  const RESERVED_WORDS: set<string> := {
    "if", "else", "repeat", "while", "function", "for", "in", "next", "break", "TRUE", "FALSE",
    "NULL", "Inf", "NaN", "NA", "NA_integer_", "NA_real_", "NA_complex_", "NA_character_"
  }

  predicate IsAlpha(c: char) { 'a' <= c <= 'z' || 'A' <= c <= 'Z' }

  predicate IsDigit(c: char) { '0' <= c <= '9' }

  predicate ValidAt(s: string, i: nat)
    requires i < |s|
  {
    s[i] == '.' || IsAlpha(s[i]) || (i > 0 && (IsDigit(s[i]) || s[i] == '_'))
  }

  function Quoted(s: string): string {
    if s in RESERVED_WORDS || exists i: nat | i < |s| :: !ValidAt(s, i)
    then "`" + Escaped(s, BACKQUOTE) + "`"
    else s
  }

  method QuoteIfNeeded(s: string) returns (t: string)
    ensures t == Quoted(s)
  {
    if s in RESERVED_WORDS {
      t := Escape(s, BACKQUOTE);
      return "`" + t + "`";
    }
    for i := 0 to |s|
      invariant forall j: nat :: j < i ==> ValidAt(s, j)
    {
      if !ValidAt(s, i) {
        t := Escape(s, BACKQUOTE);
        return "`" + t + "`";
      }
    }
    return s;
  }

  lemma QuotedIsOneLine(s: string)
    ensures '\n' !in Quoted(s)
  {
    EscapedIsOneLine(s, BACKQUOTE);
    assert '\n' in s ==> exists i: nat | i < |s| :: s[i] == '\n' && !ValidAt(s, i);
  }
}
