/** Cutting UTF-8 text at a number of bytes without breaking its last character. */
module Utf8Tail {
  import opened Wrappers
  type Byte = b: int | 0 <= b < 256

  // ----- UTF-8, section 4 of RFC 3629 -----

  predicate IsTail(b: Byte) { 0x80 <= b <= 0xBF }

  /** One character. */
  predicate IsChar(c: seq<Byte>) {
    match |c|
    case 1 => c[0] <= 0x7F
    case 2 => 0xC2 <= c[0] <= 0xDF && IsTail(c[1])
    case 3 =>
      && IsTail(c[1]) && IsTail(c[2])
      && (|| (c[0] == 0xE0 && 0xA0 <= c[1]) || 0xE1 <= c[0] <= 0xEC
          || (c[0] == 0xED && c[1] <= 0x9F) || 0xEE <= c[0] <= 0xEF)
    case 4 =>
      && IsTail(c[1]) && IsTail(c[2]) && IsTail(c[3])
      && ((c[0] == 0xF0 && 0x90 <= c[1]) || 0xF1 <= c[0] <= 0xF3 || (c[0] == 0xF4 && c[1] <= 0x8F))
    case _ => false
  }

  /** The bytes of a text. */
  function Bytes(text: seq<seq<Byte>>): seq<Byte> {
    if text == [] then [] else Bytes(text[..|text| - 1]) + text[|text| - 1]
  }

  // ----- Repairing the end -----

  /** How many tail bytes the string ends with. */
  function TailCount(s: seq<Byte>): (n: nat)
    ensures n <= |s|
  {
    if s == [] || !IsTail(s[|s| - 1]) then 0 else 1 + TailCount(s[..|s| - 1])
  }

  predicate HasBit(b: Byte, n: nat) { b / TwoTo(n) % 2 == 1 }

  /** Where the string is cut: before an unfinished last character, or nowhere. */
  function RepairedLength(s: seq<Byte>): (n: nat)
    ensures n <= |s|
  {
    var tails := TailCount(s);
    if s == [] || s[|s| - 1] < 128 || tails >= 4 || tails >= |s| then |s|
    else if HasBit(s[|s| - 1 - tails], 6 - tails) then |s| - 1 - tails
    else |s|
  }

  lemma {:induction false} TailCountOfSuffix(s: seq<Byte>, n: nat)
    requires n <= |s| && forall i :: |s| - n <= i < |s| ==> IsTail(s[i])
    ensures TailCount(s) >= n
    ensures n < |s| && !IsTail(s[|s| - 1 - n]) ==> TailCount(s) == n
  {
    if n > 0 { TailCountOfSuffix(s[..|s| - 1], n - 1); }
  }

  method FixUtf8Tail(s: seq<Byte>) returns (fixed: seq<Byte>)
    ensures fixed == s[..RepairedLength(s)]
  {
    if s == [] {
      return s;
    }
    if s[|s| - 1] < 128 {
      return s;
    }
    var count := 0;
    while IsTail(s[|s| - 1 - count])
      invariant 0 <= count < |s| && count < 4
      invariant forall i :: |s| - count <= i < |s| ==> IsTail(s[i])
      decreases 4 - count
    {
      count := count + 1;
      if count == 4 || count >= |s| {
        TailCountOfSuffix(s, count);
        return s;
      }
    }
    TailCountOfSuffix(s, count);
    var position := |s| - 1 - count;
    if !HasBit(s[position], 6 - count) {
      return s;
    }
    return s[..position];
  }

  method Trim(s: seq<Byte>, limit: nat) returns (trimmed: seq<Byte>, whole: bool)
    ensures whole <==> |s| <= limit
    ensures trimmed == if |s| <= limit then s else s[..RepairedLength(s[..limit])]
  {
    if |s| <= limit {
      return s, true;
    }
    trimmed := FixUtf8Tail(s[..limit]);
    whole := false;
  }

  // ----- Cutting valid text -----

  lemma BitsOfLead(b: Byte)
    ensures HasBit(b, 6) <==> b / 64 % 2 == 1
    ensures HasBit(b, 5) <==> b / 32 % 2 == 1
    ensures HasBit(b, 4) <==> b / 16 % 2 == 1
    ensures HasBit(b, 3) <==> b / 8 % 2 == 1
  {
    assert TwoTo(1) == 2 && TwoTo(2) == 4 && TwoTo(3) == 8;
    assert TwoTo(4) == 16 && TwoTo(5) == 32 && TwoTo(6) == 64;
  }

  /** A character that was cut off is removed again; a whole one stays. */
  lemma LastCharacter(before: seq<Byte>, c: seq<Byte>, m: nat)
    requires IsChar(c) && 0 < m <= |c|
    ensures RepairedLength(before + c[..m]) == if m == |c| then |before| + m else |before|
  {
    var s := before + c[..m];
    BitsOfLead(c[0]);
    assert forall i :: |before| <= i < |s| ==> s[i] == c[i - |before|];
    TailCountOfSuffix(s, m - 1);
    assert s[|s| - 1 - (m - 1)] == c[0];
    hide HasBit, TwoTo;
  }

  lemma {:induction false} BytesGrow(text: seq<seq<Byte>>, k: nat)
    requires k <= |text|
    ensures Bytes(text[..k]) <= Bytes(text)
    decreases |text|
  {
    if k < |text| {
      var front := text[..|text| - 1];
      BytesGrow(front, k);
      assert front[..k] == text[..k];
    } else {
      assert text[..k] == text;
    }
  }

  /** For valid text and any limit, trimming leaves the most whole characters that fit. */
  lemma {:induction false} TrimKeepsWholeCharacters(text: seq<seq<Byte>>, limit: nat) returns (k: nat)
    requires (forall c <- text :: IsChar(c)) && limit < |Bytes(text)|
    ensures k < |text| && |Bytes(text[..k])| <= limit < |Bytes(text[..k + 1])|
    ensures Bytes(text)[..RepairedLength(Bytes(text)[..limit])] == Bytes(text[..k])
  {
    var n := |text| - 1;
    var front, last := text[..n], text[n];
    if limit < |Bytes(front)| {
      k := TrimKeepsWholeCharacters(front, limit);
      assert front[..k] == text[..k] && front[..k + 1] == text[..k + 1];
      BytesGrow(text, n);
      assert Bytes(front)[..limit] == Bytes(text)[..limit];
      BytesGrow(front, k);
    } else {
      k := n;
      assert text[..n + 1] == text && last in text;
      var m := limit - |Bytes(front)|;
      if m == 0 {
        assert Bytes(text)[..limit] == Bytes(front);
        WholeTextStays(front);
      } else {
        assert Bytes(text)[..limit] == Bytes(front) + last[..m];
        LastCharacter(Bytes(front), last, m);
      }
      assert Bytes(text)[..|Bytes(front)|] == Bytes(front);
    }
  }

  lemma WholeTextStays(text: seq<seq<Byte>>)
    requires forall c <- text :: IsChar(c)
    ensures RepairedLength(Bytes(text)) == |Bytes(text)|
  {
    if text != [] {
      var n := |text| - 1;
      assert text[n] in text;
      LastCharacter(Bytes(text[..n]), text[n], |text[n]|);
      assert text[n][..|text[n]|] == text[n];
    }
  }
}
