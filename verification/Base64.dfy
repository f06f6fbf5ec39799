/** Base64: section 4 of RFC 4648. */
module Base64 {
  type Byte = b: int | 0 <= b < 256
  type Sextet = v: int | 0 <= v < 64

  /** The alphabet: A-Z, a-z, 0-9, + and /. */
  function CharOf(v: Sextet): char {
    if v < 26 then ('A' as int + v) as char
    else if v < 52 then ('a' as int + v - 26) as char
    else if v < 62 then ('0' as int + v - 52) as char
    else if v == 62 then '+' else '/'
  }

  predicate IsBase64(c: char) {
    'A' <= c <= 'Z' || 'a' <= c <= 'z' || '0' <= c <= '9' || c == '+' || c == '/'
  }

  function ValueOf(c: char): Sextet
    requires IsBase64(c)
  {
    if 'A' <= c <= 'Z' then c as int - 'A' as int
    else if 'a' <= c <= 'z' then c as int - 'a' as int + 26
    else if '0' <= c <= '9' then c as int - '0' as int + 52
    else if c == '+' then 62 else 63
  }

  lemma ValueInverts(v: Sextet)
    ensures IsBase64(CharOf(v)) && CharOf(v) != '=' && ValueOf(CharOf(v)) == v
  {
  }

  // ----- Groups -----

  // Three bytes make four sextets. Where the program shifts and masks, this divides and takes remainders.
  function Sextet0(a: Byte): Sextet { a / 4 }

  function Sextet1(a: Byte, b: Byte): Sextet { a % 4 * 16 + b / 16 }

  function Sextet2(b: Byte, c: Byte): Sextet { b % 16 * 4 + c / 64 }

  function Sextet3(c: Byte): Sextet { c % 64 }

  function Byte0(u: Sextet, v: Sextet): Byte { u * 4 + v / 16 }

  function Byte1(v: Sextet, w: Sextet): Byte { v % 16 * 16 + w / 4 }

  function Byte2(w: Sextet, x: Sextet): Byte { w % 4 * 64 + x }

  lemma GroupInverts(a: Byte, b: Byte, c: Byte)
    ensures Byte0(Sextet0(a), Sextet1(a, b)) == a
    ensures Byte1(Sextet1(a, b), Sextet2(b, c)) == b
    ensures Byte2(Sextet2(b, c), Sextet3(c)) == c
  {
  }

  function EncodedGroup(a: Byte, b: Byte, c: Byte): string {
    [CharOf(Sextet0(a)), CharOf(Sextet1(a, b)), CharOf(Sextet2(b, c)), CharOf(Sextet3(c))]
  }

  /** The padded form of a last group of one or two bytes. */
  function EncodedRest(rest: seq<Byte>): string
    requires |rest| < 3
  {
    if rest == [] then ""
    else if |rest| == 1 then [CharOf(Sextet0(rest[0])), CharOf(Sextet1(rest[0], 0)), '=', '=']
    else [CharOf(Sextet0(rest[0])), CharOf(Sextet1(rest[0], rest[1])), CharOf(Sextet2(rest[1], 0)), '=']
  }

  function Encoded(bytes: seq<Byte>): string {
    if |bytes| < 3 then EncodedRest(bytes)
    else EncodedGroup(bytes[0], bytes[1], bytes[2]) + Encoded(bytes[3..])
  }

  /** The bytes of a number of base64 characters; a last group of n characters makes n - 1 bytes. */
  function DecodedChars(chars: string): seq<Byte>
    requires forall c <- chars :: IsBase64(c)
  {
    if |chars| >= 4 then
      assert forall c <- chars[4..] :: c in chars;
      [Byte0(ValueOf(chars[0]), ValueOf(chars[1])), Byte1(ValueOf(chars[1]), ValueOf(chars[2])),
       Byte2(ValueOf(chars[2]), ValueOf(chars[3]))] + DecodedChars(chars[4..])
    else if |chars| == 3 then
      [Byte0(ValueOf(chars[0]), ValueOf(chars[1])), Byte1(ValueOf(chars[1]), ValueOf(chars[2]))]
    else if |chars| == 2 then [Byte0(ValueOf(chars[0]), ValueOf(chars[1]))]
    else []
  }

  /** The base64 characters before the first other one. */
  function Prefix(s: string): (p: string)
    ensures p <= s && (forall c <- p :: IsBase64(c)) && (|p| < |s| ==> !IsBase64(s[|p|]))
  {
    if s == [] || !IsBase64(s[0]) then [] else [s[0]] + Prefix(s[1..])
  }

  function Decoded(s: string): seq<Byte> { DecodedChars(Prefix(s)) }

  // ----- The loops -----

  lemma EncodedUnfold(bytes: seq<Byte>)
    requires |bytes| >= 3
    ensures Encoded(bytes) == EncodedGroup(bytes[0], bytes[1], bytes[2]) + Encoded(bytes[3..])
  {
    hide EncodedGroup;
  }

  lemma {:induction false} EncodedAppends(front: seq<Byte>, rest: seq<Byte>, groups: nat)
    requires |front| == 3 * groups
    ensures Encoded(front + rest) == Encoded(front) + Encoded(rest)
    decreases groups
  {
    hide EncodedGroup, Encoded;
    if groups == 0 {
      assert front == [] && front + rest == rest;
      EncodedNothing();
      assert "" + Encoded(rest) == Encoded(rest);
    } else {
      var all := front + rest;
      EncodedUnfold(front);
      EncodedUnfold(all);
      EncodedAppends(front[3..], rest, groups - 1);
      assert all[3..] == front[3..] + rest;
      assert all[0] == front[0] && all[1] == front[1] && all[2] == front[2];
      var group := EncodedGroup(front[0], front[1], front[2]);
      assert Encoded(all) == group + (Encoded(front[3..]) + Encoded(rest));
      assert group + (Encoded(front[3..]) + Encoded(rest)) == group + Encoded(front[3..]) + Encoded(rest);
    }
  }

  /** After n bytes the last i of them are held in the cells, and the others are encoded. */
  ghost predicate Carried(bytes: seq<Byte>, n: nat, i: nat, cells: seq<Byte>, ret: string) {
    && i <= |cells| == 3 && i <= n <= |bytes|
    && cells[..i] == bytes[n - i..n] && ret == Encoded(bytes[..n - i])
  }

  lemma NothingCarried(bytes: seq<Byte>, cells: seq<Byte>)
    requires |cells| == 3
    ensures Carried(bytes, 0, 0, cells, "")
  {
    EncodedNothing();
    hide Encoded;
  }

  lemma CarryOne(bytes: seq<Byte>, n: nat, i: nat, cells: seq<Byte>, ret: string)
    requires i < 3 && n < |bytes| && Carried(bytes, n, i, cells, ret)
    ensures Carried(bytes, n + 1, i + 1, cells[i := bytes[n]], ret)
  {
    hide Encoded;
    assert bytes[n - i..n + 1] == bytes[n - i..n] + [bytes[n]];
    assert cells[i := bytes[n]][..i + 1] == cells[..i] + [bytes[n]];
  }

  lemma CarryGroup(bytes: seq<Byte>, n: nat, groups: nat, cells: seq<Byte>, ret: string)
    requires n == 3 * groups + 3 && Carried(bytes, n, 3, cells, ret)
    ensures Carried(bytes, n, 0, cells, ret + EncodedGroup(cells[0], cells[1], cells[2]))
  {
    hide Encoded, EncodedGroup;
    EncodedOneGroup(bytes, groups);
    assert cells == cells[..3] == bytes[n - 3..n];
    assert cells[0] == bytes[n - 3] && cells[1] == bytes[n - 2] && cells[2] == bytes[n - 1];
  }

  lemma CarryRest(bytes: seq<Byte>, i: nat, groups: nat, cells: seq<Byte>, ret: string)
    requires i < 3 && |bytes| == 3 * groups + i && Carried(bytes, |bytes|, i, cells, ret)
    ensures Encoded(bytes) == ret + EncodedRest(cells[..i])
  {
    hide Encoded, EncodedRest;
    var n := |bytes| - i;
    EncodedAppends(bytes[..n], bytes[n..], groups);
    assert bytes[..n] + bytes[n..] == bytes;
    EncodedIsRest(bytes[n..]);
    assert bytes[n..] == cells[..i];
  }

  method Encode(bytes: seq<Byte>) returns (ret: string)
    ensures ret == Encoded(bytes)
  {
    hide Encoded, EncodedGroup, EncodedRest, Carried;
    ret := "";
    var group: array<Byte> := new Byte[3](_ => 0);
    var i := 0;
    ghost var groups := 0;
    NothingCarried(bytes, group[..]);
    for n := 0 to |bytes|
      invariant 0 <= i < 3 && n == 3 * groups + i
      invariant Carried(bytes, n, i, group[..], ret)
    {
      ghost var cells := group[..];
      group[i] := bytes[n];
      assert group[..] == cells[i := bytes[n]];
      CarryOne(bytes, n, i, cells, ret);
      i := i + 1;
      if i == 3 {
        CarryGroup(bytes, n + 1, groups, group[..], ret);
        var chars := WriteGroup(group);
        ret := ret + chars;
        i := 0;
        groups := groups + 1;
      }
    }
    CarryRest(bytes, i, groups, group[..], ret);
    assert group[..][..i] == group[..i];
    if i > 0 {
      var chars := WriteRest(group, i);
      ret := ret + chars;
    } else {
      NoRest();
    }
  }

  lemma EncodedNothing()
    ensures Encoded([]) == ""
  {
  }

  lemma NoRest()
    ensures EncodedRest([]) == ""
  {
  }

  lemma EncodedIsRest(rest: seq<Byte>)
    requires |rest| < 3
    ensures Encoded(rest) == EncodedRest(rest)
  {
  }

  lemma EncodedOneGroup(bytes: seq<Byte>, groups: nat)
    requires 3 * groups + 3 <= |bytes|
    ensures
      var n := 3 * groups;
      Encoded(bytes[..n + 3]) == Encoded(bytes[..n]) + EncodedGroup(bytes[n], bytes[n + 1], bytes[n + 2])
  {
    hide EncodedGroup, Encoded;
    var n := 3 * groups;
    var group := bytes[n..n + 3];
    assert bytes[..n + 3] == bytes[..n] + group;
    EncodedAppends(bytes[..n], group, groups);
    assert group[3..] == [];
    EncodedUnfold(group);
    EncodedNothing();
  }

  method WriteGroup(group: array<Byte>) returns (chars: string)
    requires group.Length == 3
    ensures chars == EncodedGroup(group[0], group[1], group[2])
  {
    var sextets := SplitGroup(group);
    hide CharOf, Sextet0, Sextet1, Sextet2, Sextet3;
    chars := WriteSextets(sextets, 4);
  }

  method WriteRest(group: array<Byte>, n: nat) returns (chars: string)
    requires group.Length == 3 && 0 < n < 3
    modifies group
    ensures chars == EncodedRest(old(group[..n]))
  {
    FillGroup(group, n);
    ghost var rest := group[..n];
    var sextets := SplitGroup(group);
    assert rest[0] == group[0] && (n == 2 ==> rest[1] == group[1]);
    RestIs(rest, sextets[..n + 1]);
    hide *;
    chars := WriteSextets(sextets, n + 1);
    chars := Pad(chars, n);
  }

  method Pad(chars: string, n: nat) returns (padded: string)
    requires n <= 3
    ensures padded == chars + Padding(3 - n)
  {
    padded := chars;
    var i := n;
    while i < 3
      invariant n <= i <= 3 && padded == chars + Padding(i - n)
    {
      OneMorePad(chars, i - n);
      padded := padded + "=";
      i := i + 1;
    }
  }

  method SplitGroup(group: array<Byte>) returns (sextets: array<Sextet>)
    requires group.Length == 3
    ensures fresh(sextets) && sextets.Length == 4
    ensures sextets[0] == Sextet0(group[0]) && sextets[1] == Sextet1(group[0], group[1])
    ensures sextets[2] == Sextet2(group[1], group[2]) && sextets[3] == Sextet3(group[2])
  {
    hide *;
    sextets := new Sextet[4](_ => 0);
    sextets[0] := Sextet0(group[0]);
    sextets[1] := Sextet1(group[0], group[1]);
    sextets[2] := Sextet2(group[1], group[2]);
    sextets[3] := Sextet3(group[2]);
  }

  method FillGroup(group: array<Byte>, n: nat)
    requires n <= group.Length
    modifies group
    ensures group[..n] == old(group[..n]) && forall k :: n <= k < group.Length ==> group[k] == 0
  {
    for j := n to group.Length
      invariant group[..n] == old(group[..n])
      invariant forall k :: n <= k < j ==> group[k] == 0
    {
      group[j] := 0;
    }
  }

  lemma OneMorePad(s: string, n: nat)
    ensures s + Padding(n) + "=" == s + Padding(n + 1)
  {
    assert Padding(n) + "=" == Padding(n + 1);
  }

  lemma RestIs(rest: seq<Byte>, sextets: seq<Sextet>)
    requires 0 < |rest| < 3 && |sextets| == |rest| + 1
    requires sextets[0] == Sextet0(rest[0]) && sextets[1] == Sextet1(rest[0], if |rest| == 2 then rest[1] else 0)
    requires |rest| == 2 ==> sextets[2] == Sextet2(rest[1], 0)
    ensures SextetChars(sextets) + Padding(3 - |rest|) == EncodedRest(rest)
  {
    hide CharOf, Sextet0, Sextet1, Sextet2;
  }

  function SextetChars(sextets: seq<Sextet>): string {
    seq(|sextets|, i requires 0 <= i < |sextets| => CharOf(sextets[i]))
  }

  function Padding(n: nat): string { seq(n, _ => '=') }

  method WriteSextets(sextets: array<Sextet>, n: nat) returns (chars: string)
    requires n <= sextets.Length
    ensures chars == SextetChars(sextets[..n])
  {
    hide CharOf;
    chars := "";
    for i := 0 to n
      invariant |chars| == i && forall j :: 0 <= j < i ==> chars[j] == CharOf(sextets[j])
    {
      chars := chars + [CharOf(sextets[i])];
    }
  }

  lemma {:induction false} DecodedAppends(front: string, rest: string, groups: nat)
    requires |front| == 4 * groups && (forall c <- front + rest :: IsBase64(c))
    ensures (forall c <- front :: IsBase64(c)) && (forall c <- rest :: IsBase64(c))
    ensures DecodedChars(front + rest) == DecodedChars(front) + DecodedChars(rest)
  {
    assert forall c <- front :: c in front + rest;
    assert forall c <- rest :: c in front + rest;
    hide IsBase64, ValueOf, Byte0, Byte1, Byte2;
    if groups == 0 {
      assert front == [] && front + rest == rest;
    } else {
      assert (front + rest)[4..] == front[4..] + rest;
      assert forall c <- front[4..] + rest :: c in front + rest;
      DecodedAppends(front[4..], rest, groups - 1);
    }
  }

  lemma DecodedOneGroup(chars: string)
    requires |chars| == 4 && forall c <- chars :: IsBase64(c)
    ensures
      DecodedChars(chars) ==
      [Byte0(ValueOf(chars[0]), ValueOf(chars[1])), Byte1(ValueOf(chars[1]), ValueOf(chars[2])),
       Byte2(ValueOf(chars[2]), ValueOf(chars[3]))]
  {
    hide Byte0, Byte1, Byte2, ValueOf, IsBase64;
    assert chars[4..] == [];
  }

  /** The values of the first n characters of a group; the others keep what they had. */
  method ValuesOf(group: array<char>, n: nat, values: array<Sextet>)
    requires group.Length == 4 == values.Length && n <= 4 && forall k :: 0 <= k < n ==> IsBase64(group[k])
    modifies values
    ensures forall k :: 0 <= k < n ==> values[k] == ValueOf(group[k])
  {
    hide IsBase64, ValueOf;
    for k := 0 to n
      invariant forall l :: 0 <= l < k ==> values[l] == ValueOf(group[l])
    {
      values[k] := ValueOf(group[k]);
    }
  }

  /** What a group of characters decodes to, from the values of its characters. */
  lemma GroupDecodes(chars: string, values: seq<Sextet>, decoded: seq<Byte>)
    requires |chars| <= 4 == |values| && (forall c <- chars :: IsBase64(c))
    requires forall k :: 0 <= k < |chars| ==> chars[k] in chars && values[k] == ValueOf(chars[k])
    requires decoded == [Byte0(values[0], values[1]), Byte1(values[1], values[2]), Byte2(values[2], values[3])]
    ensures DecodedChars(chars) == decoded[..if |chars| == 0 then 0 else |chars| - 1]
  {
    if |chars| == 4 { DecodedOneGroup(chars); }
    hide Byte0, Byte1, Byte2, ValueOf, IsBase64;
  }

  /** The bytes of the first n characters of a group. */
  method DecodeGroup(group: array<char>, n: nat, values: array<Sextet>) returns (bytes: seq<Byte>)
    requires group.Length == 4 == values.Length && n <= 4 && forall c <- group[..n] :: IsBase64(c)
    modifies values
    ensures bytes == DecodedChars(group[..n])
  {
    ghost var chars := group[..n];
    assert forall k :: 0 <= k < n ==> group[k] == chars[k] && chars[k] in chars;
    hide Byte0, Byte1, Byte2, ValueOf, IsBase64, DecodedChars;
    ValuesOf(group, n, values);
    var decoded: array<Byte> := new Byte[3](_ => 0);
    decoded[0] := Byte0(values[0], values[1]);
    decoded[1] := Byte1(values[1], values[2]);
    decoded[2] := Byte2(values[2], values[3]);
    GroupDecodes(chars, values[..], decoded[..]);
    bytes := [];
    for k := 0 to (if n == 0 then 0 else n - 1)
      invariant bytes == decoded[..][..k]
    {
      bytes := bytes + [decoded[k]];
    }
  }

  /** All n characters so far are base64, and the last i of them are held in the cells. */
  ghost predicate Held(s: string, n: nat, i: nat, cells: seq<char>) {
    && i <= |cells| == 4 && i <= n <= |s|
    && cells[..i] == s[n - i..n] && (forall c <- s[..n] :: IsBase64(c))
  }

  lemma HoldOne(s: string, n: nat, i: nat, cells: seq<char>)
    requires i < 4 && n < |s| && Held(s, n, i, cells) && IsBase64(s[n])
    ensures Held(s, n + 1, i + 1, cells[i := s[n]])
  {
    hide IsBase64;
    assert s[n - i..n + 1] == s[n - i..n] + [s[n]];
    assert cells[i := s[n]][..i + 1] == cells[..i] + [s[n]];
    assert s[..n + 1] == s[..n] + [s[n]];
  }

  method Decode(s: string) returns (ret: seq<Byte>)
    ensures ret == Decoded(s)
  {
    hide IsBase64, DecodedChars, Held;
    ret := [];
    NothingDecoded();
    var group: array<char> := new char[4](_ => 'A');
    var values: array<Sextet> := new Sextet[4](_ => 0);
    var i, n := 0, 0;
    ghost var groups := 0;
    NothingHeld(s, group[..]);
    while n < |s| && s[n] != '=' && IsBase64(s[n])
      invariant 0 <= i < 4 && n == 4 * groups + i <= |s|
      invariant Held(s, n, i, group[..])
      invariant (forall c <- s[..4 * groups] :: IsBase64(c)) && ret == DecodedChars(s[..4 * groups])
      decreases |s| - n
    {
      ghost var cells := group[..];
      group[i] := s[n];
      assert group[..] == cells[i := s[n]];
      HoldOne(s, n, i, cells);
      n, i := n + 1, i + 1;
      if i == 4 {
        DecodedMore(s, groups, n, i, group[..]);
        assert group[..][..4] == group[..4];
        var bytes := DecodeGroup(group, 4, values);
        ret := ret + bytes;
        LetGo(s, n, group[..]);
        i := 0;
        groups := groups + 1;
      }
    }
    DecodedMore(s, groups, n, i, group[..]);
    assert group[..][..i] == group[..i];
    var bytes := DecodeGroup(group, i, values);
    ret := ret + bytes;
    EqualsIsNoBase64();
    PrefixIs(s, s[..n]);
  }

  lemma NothingHeld(s: string, cells: seq<char>)
    requires |cells| == 4
    ensures Held(s, 0, 0, cells)
  {
  }

  lemma LetGo(s: string, n: nat, cells: seq<char>)
    requires Held(s, n, 4, cells)
    ensures Held(s, n, 0, cells)
  {
  }

  lemma NothingDecoded()
    ensures DecodedChars("") == []
  {
  }

  lemma EqualsIsNoBase64()
    ensures !IsBase64('=')
  {
  }

  lemma DecodedMore(s: string, groups: nat, n: nat, i: nat, cells: seq<char>)
    requires n == 4 * groups + i && Held(s, n, i, cells)
    ensures forall c <- s[..n] :: IsBase64(c)
    ensures forall c <- s[..4 * groups] :: IsBase64(c)
    ensures forall c <- cells[..i] :: IsBase64(c)
    ensures DecodedChars(s[..n]) == DecodedChars(s[..4 * groups]) + DecodedChars(cells[..i])
  {
    hide IsBase64, DecodedChars;
    var front, rest := s[..4 * groups], s[4 * groups..n];
    assert front + rest == s[..n];
    DecodedAppends(front, rest, groups);
  }

  // ----- Laws -----

  /** The length is that of the padded form: four characters for every three bytes begun. */
  lemma {:induction false} EncodedLength(bytes: seq<Byte>)
    ensures |Encoded(bytes)| == 4 * ((|bytes| + 2) / 3)
  {
    hide CharOf, Sextet0, Sextet1, Sextet2, Sextet3;
    if |bytes| >= 3 { EncodedLength(bytes[3..]); }
  }

  /** The part of the encoded form before the padding. */
  function Unpadded(bytes: seq<Byte>): string {
    if bytes == [] then ""
    else if |bytes| == 1 then [CharOf(Sextet0(bytes[0])), CharOf(Sextet1(bytes[0], 0))]
    else if |bytes| == 2 then [CharOf(Sextet0(bytes[0])), CharOf(Sextet1(bytes[0], bytes[1])),
                               CharOf(Sextet2(bytes[1], 0))]
    else EncodedGroup(bytes[0], bytes[1], bytes[2]) + Unpadded(bytes[3..])
  }

  lemma {:induction false} EncodedIsPadded(bytes: seq<Byte>)
    ensures Unpadded(bytes) <= Encoded(bytes)
    ensures forall i :: |Unpadded(bytes)| <= i < |Encoded(bytes)| ==> Encoded(bytes)[i] == '='
    ensures forall c <- Unpadded(bytes) :: IsBase64(c)
  {
    hide CharOf;
    if |bytes| >= 3 {
      EncodedIsPadded(bytes[3..]);
      GroupIsBase64(bytes[0], bytes[1], bytes[2]);
    } else if |bytes| > 0 {
      ValueInverts(Sextet0(bytes[0]));
      ValueInverts(Sextet1(bytes[0], if |bytes| == 2 then bytes[1] else 0));
      if |bytes| == 2 { ValueInverts(Sextet2(bytes[1], 0)); }
    }
  }

  lemma GroupIsBase64(a: Byte, b: Byte, c: Byte)
    ensures forall x <- EncodedGroup(a, b, c) :: IsBase64(x)
  {
    ValueInverts(Sextet0(a));
    ValueInverts(Sextet1(a, b));
    ValueInverts(Sextet2(b, c));
    ValueInverts(Sextet3(c));
  }

  lemma {:induction false} PrefixIs(s: string, p: string)
    requires p <= s && (forall c <- p :: IsBase64(c)) && (|p| < |s| ==> !IsBase64(s[|p|]))
    ensures Prefix(s) == p
  {
    if p != [] {
      assert forall c <- p[1..] :: c in p;
      PrefixIs(s[1..], p[1..]);
      assert p[0] in p;
      assert p == [p[0]] + p[1..];
    }
  }

  lemma {:induction false} UnpaddedDecodes(bytes: seq<Byte>)
    requires forall c <- Unpadded(bytes) :: IsBase64(c)
    ensures DecodedChars(Unpadded(bytes)) == bytes
  {
    hide CharOf, ValueOf, IsBase64, Byte0, Byte1, Byte2, Sextet0, Sextet1, Sextet2, Sextet3;
    if |bytes| >= 3 {
      var a, b, c := bytes[0], bytes[1], bytes[2];
      ValueInverts(Sextet0(a));
      ValueInverts(Sextet1(a, b));
      ValueInverts(Sextet2(b, c));
      ValueInverts(Sextet3(c));
      GroupInverts(a, b, c);
      var rest := Unpadded(bytes[3..]);
      assert Unpadded(bytes)[4..] == rest;
      assert forall x <- rest :: x in Unpadded(bytes);
      UnpaddedDecodes(bytes[3..]);
    } else if |bytes| == 2 {
      ValueInverts(Sextet0(bytes[0]));
      ValueInverts(Sextet1(bytes[0], bytes[1]));
      ValueInverts(Sextet2(bytes[1], 0));
      GroupInverts(bytes[0], bytes[1], 0);
    } else if |bytes| == 1 {
      ValueInverts(Sextet0(bytes[0]));
      ValueInverts(Sextet1(bytes[0], 0));
      GroupInverts(bytes[0], 0, 0);
    }
  }

  /** Decoding inverts encoding, for every byte string. */
  lemma DecodeInvertsEncode(bytes: seq<Byte>)
    ensures Decoded(Encoded(bytes)) == bytes
  {
    EncodedIsPadded(bytes);
    PrefixIs(Encoded(bytes), Unpadded(bytes));
    UnpaddedDecodes(bytes);
  }

  // ----- The alphabet -----

  // Table 1 of RFC 4648.
  const UPPER_CASE := "ABCDEFGHIJKLMNOPQRSTUVWXYZ"
  const LOWER_CASE := "abcdefghijklmnopqrstuvwxyz"
  const DIGITS := "0123456789"
  const ALPHABET := UPPER_CASE + LOWER_CASE + DIGITS + "+/"

  /** The n characters from c on. */
  function From(c: char, n: nat): (s: string)
    requires c as int + n < 0xD800
    ensures |s| == n && forall i | 0 <= i < n :: s[i] == (c as int + i) as char
  {
    if n == 0 then "" else From(c, n - 1) + [(c as int + n - 1) as char]
  }

  lemma LettersAndDigits()
    ensures UPPER_CASE == From('A', 26) && LOWER_CASE == From('a', 26) && DIGITS == From('0', 10)
  {
  }

  lemma AlphabetIs(v: Sextet)
    ensures |ALPHABET| == 64 && CharOf(v) == ALPHABET[v]
  {
    LettersAndDigits();
    hide UPPER_CASE, LOWER_CASE, DIGITS;
  }
}
