/** Exactly when matching by the kernel's rule and by the language's rule come out the same. */
module MatchArgsOutcome {
  import opened Wrappers
  import opened MatchArgs
  import opened MatchArgsLaws

  /** Both policies accept the call or both reject it, and accepted calls are matched alike. */
  ghost predicate OutcomesAgree(F: seq<string>, S: seq<Arg>) {
    && (Accepts(F, S, Kernel) <==> Accepts(F, S, Language))
    && (Accepts(F, S, Kernel) ==>
          forall actuals, missing :: IsMatching(F, S, Kernel, actuals, missing) <==>
              IsMatching(F, S, Language, actuals, missing))
  }

  // ----- The condition -----

  /** A formal that is bound, but only by an empty tagged argument. */
  ghost predicate Emptied(T: Pairs, S: seq<Arg>, f: nat) {
    HasFormal(T, f) && Open(T, S, Kernel, f)
  }

  /** The first such formal before n, or n. */
  ghost function FirstEmptied(T: Pairs, S: seq<Arg>, n: nat): (e: nat)
    ensures e <= n && (e < n ==> Emptied(T, S, e)) && forall f: nat :: f < e ==> !Emptied(T, S, f)
  {
    if n == 0 then 0 else
    var e := FirstEmptied(T, S, n - 1);
    if e < n - 1 || Emptied(T, S, n - 1) then e else n
  }

  /** How many formals before f are open to positional arguments. */
  ghost function Rank(T: Pairs, S: seq<Arg>, p: Policy, f: nat): nat { |Listed(Opens(T, S, p), f)| }

  /** The positions of the untagged arguments. */
  ghost function Plain(S: seq<Arg>): seq<nat> { Listed(Untagged(S), |S|) }

  /** A tagged argument fits no formal. */
  ghost predicate HasStray(T: Pairs, S: seq<Arg>) {
    exists b: nat :: b < |S| && S[b].tag.Some? && !HasArg(T, b)
  }

  /** The untagged arguments from rank o on are empty. */
  ghost predicate EmptyFrom(S: seq<Arg>, o: nat) {
    forall i: nat :: o <= i < |Plain(S)| ==> ValueAt(S, i) == MissingArg
  }

  /** The i-th untagged argument, or the empty one when there are not so many. */
  ghost function ValueAt(S: seq<Arg>, i: nat): Value {
    var U := Plain(S);
    if i < |U| && U[i] < |S| then S[U[i]].value else MissingArg
  }

  /** The tags clash; or no formal before `...` is bound by an empty tagged argument only; or there
      is no `...` and a tag fits nothing, or there are too many untagged arguments even for the
      kernel; or the untagged arguments are not too many for the language, and those that come
      after the open formals before the first emptied one are all empty. */
  ghost predicate NothingMoves(F: seq<string>, S: seq<Arg>) {
    var T, d := TagPairs(F, S), DotsIndex(F);
    var e := FirstEmptied(T, S, d);
    || !OneToOne(T)
    || e == d
    || (d == |F| && (HasStray(T, S) || |Plain(S)| > Rank(T, S, Kernel, d)))
    || (|Plain(S)| <= Rank(T, S, Language, d) && EmptyFrom(S, Rank(T, S, Language, e)))
  }

  // ----- What a formal receives -----

  /** The value a formal other than `...` receives. */
  ghost function Received(T: Pairs, d: nat, S: seq<Arg>, p: Policy, f: nat): Value {
    if f < d && Open(T, S, p, f) then ValueAt(S, Rank(T, S, p, f)) else TagValue(T, S, f)
  }

  /** What the tags alone give it. */
  ghost function TagValue(T: Pairs, S: seq<Arg>, f: nat): Value {
    if b: nat :| b < |S| && (f, b) in T then S[b].value else MissingArg
  }

  /** A member of a list stands at its rank. */
  lemma {:induction false} RankIsIndex(s: iset<nat>, n: nat, f: nat)
    requires f < n && f in s
    ensures |Listed(s, f)| < |Listed(s, n)| && Listed(s, n)[|Listed(s, f)|] == f
  {
    ListedPrefix(s, f + 1, n);
    assert Listed(s, f + 1) == Listed(s, f) + [f];
  }

  lemma RankIsOnly(s: iset<nat>, n: nat, k: nat)
    requires k < |Listed(s, n)|
    ensures Listed(s, n)[k] < n && Listed(s, n)[k] in s && |Listed(s, Listed(s, n)[k])| == k
  {
    ListedAre(s, n);
    ListedAt(s, n, k);
    RankIsIndex(s, n, Listed(s, n)[k]);
  }

  /** Tag pairs as the rules make them: untagged arguments have no part in them. */
  ghost predicate TagsFit(T: Pairs, d: nat, S: seq<Arg>) {
    OneToOne(T) && forall f: nat, b: nat :: (f, b) in T ==> f != d && b < |S| && S[b].tag.Some?
  }

  lemma PlainIsUntagged(S: seq<Arg>)
    ensures forall i: nat :: i < |Plain(S)| ==> Plain(S)[i] < |S| && S[Plain(S)[i]].tag.None?
    ensures forall b: nat :: b < |S| && S[b].tag.None? ==> b in Plain(S)
    ensures Ascending(Plain(S))
  {
    ListedAre(Untagged(S), |S|);
    forall i: nat | i < |Plain(S)| ensures Plain(S)[i] < |S| && S[Plain(S)[i]].tag.None? {
      ListedAt(Untagged(S), |S|, i);
    }
  }

  /** An open formal before `...` is paired when its rank is not past the untagged arguments. */
  lemma PairedByRank(T: Pairs, d: nat, S: seq<Arg>, p: Policy, f: nat)
    requires f < d && Open(T, S, p, f)
    ensures
      var O, U := PositionalFormals(T, d, S, p), PositionalArgs(T, d, S, p);
      var r := Rank(T, S, p, f);
      && (f in O <==> r < |Plain(S)|)
      && (forall b: nat :: Beside(O, U, f, b) <==> r < |Plain(S)| && Plain(S)[r] == b)
  {
    var s := Opens(T, S, p);
    var O, U := PositionalFormals(T, d, S, p), PositionalArgs(T, d, S, p);
    var r := Rank(T, S, p, f);
    RankIsIndex(s, d, f);
    forall k: nat | k < |O| ensures O[k] == f <==> k == r {
      RankIsOnly(s, d, k);
    }
    if r < |Plain(S)| {
      assert O[r] == f && U[r] == Plain(S)[r];
    }
  }

  lemma ClosedIsUnpaired(T: Pairs, d: nat, S: seq<Arg>, p: Policy, f: nat)
    requires f >= d || !Open(T, S, p, f)
    ensures f !in PositionalFormals(T, d, S, p)
    ensures forall b: nat :: !Beside(PositionalFormals(T, d, S, p), PositionalArgs(T, d, S, p), f, b)
  {
    PositionalListsAre(T, d, S, p);
  }

  /** A cell is right exactly when it holds what the formal receives. */
  lemma CellIsReceived(T: Pairs, d: nat, S: seq<Arg>, p: Policy, f: nat, v: Value)
    requires TagsFit(T, d, S) && f != d
    ensures CellHolds(T, d, S, p, f, v) <==> v == Received(T, d, S, p, f)
  {
    PlainIsUntagged(S);
    var O, U := PositionalFormals(T, d, S, p), PositionalArgs(T, d, S, p);
    if f < d && Open(T, S, p, f) {
      PairedByRank(T, d, S, p, f);
      var r := Rank(T, S, p, f);
      if r < |Plain(S)| {
        assert Binds(T, d, S, p, f, Plain(S)[r]);
      } else {
        TagOfOpen(T, d, S, p, f, v);
      }
    } else {
      ClosedIsUnpaired(T, d, S, p, f);
      TagOfClosed(T, d, S, p, f, v);
    }
  }

  lemma TagOfOpen(T: Pairs, d: nat, S: seq<Arg>, p: Policy, f: nat, v: Value)
    requires TagsFit(T, d, S) && Open(T, S, p, f) && f !in PositionalFormals(T, d, S, p)
    requires forall b: nat :: !Beside(PositionalFormals(T, d, S, p), PositionalArgs(T, d, S, p), f, b)
    ensures CellHolds(T, d, S, p, f, v) <==> v == MissingArg
  {
    if b: nat :| (f, b) in T {
      assert Binds(T, d, S, p, f, b) && S[b].value == MissingArg;
    }
  }

  lemma TagOfClosed(T: Pairs, d: nat, S: seq<Arg>, p: Policy, f: nat, v: Value)
    requires TagsFit(T, d, S) && f !in PositionalFormals(T, d, S, p)
    requires forall b: nat :: !Beside(PositionalFormals(T, d, S, p), PositionalArgs(T, d, S, p), f, b)
    ensures CellHolds(T, d, S, p, f, v) <==> v == TagValue(T, S, f)
  {
    if b: nat :| (f, b) in T {
      assert Binds(T, d, S, p, f, b) && TagValue(T, S, f) == S[b].value;
      assert forall c: nat :: Binds(T, d, S, p, f, c) <==> c == b;
    }
  }

  // ----- Both policies give every formal the same -----

  /** Before n every formal receives the same under both policies. */
  ghost predicate SameBefore(T: Pairs, d: nat, S: seq<Arg>, n: nat) {
    forall f: nat :: f < n ==> Received(T, d, S, Kernel, f) == Received(T, d, S, Language, f)
  }

  lemma EmptiedReceives(T: Pairs, d: nat, S: seq<Arg>, f: nat)
    requires TagsFit(T, d, S) && Emptied(T, S, f)
    ensures Received(T, d, S, Language, f) == MissingArg
  {
  }

  lemma OpenAlike(T: Pairs, S: seq<Arg>, f: nat)
    ensures Open(T, S, Language, f) ==> Open(T, S, Kernel, f)
    ensures Open(T, S, Kernel, f) && !Emptied(T, S, f) ==> Open(T, S, Language, f)
  {
  }

  /** Up to the first emptied formal the ranks agree; past it the kernel's are higher. */
  lemma {:induction false} RanksDrift(T: Pairs, S: seq<Arg>, d: nat, f: nat)
    requires f <= d
    ensures
      var e := FirstEmptied(T, S, d);
      var o := Rank(T, S, Language, e);
      && (f <= e ==> Rank(T, S, Kernel, f) == Rank(T, S, Language, f) <= o)
      && (f > e ==> o <= Rank(T, S, Language, f) < Rank(T, S, Kernel, f))
  {
    var e := FirstEmptied(T, S, d);
    if f > 0 {
      RanksDrift(T, S, d, f - 1);
      OpenAlike(T, S, f - 1);
    }
    if f <= e { ListedPrefix(Opens(T, S, Language), f, e); }
  }

  /** When nothing differs, the untagged arguments from the first emptied formal on are empty, rank by rank. */
  lemma {:induction false} SameMeansEmpty(T: Pairs, d: nat, S: seq<Arg>, f: nat)
    requires TagsFit(T, d, S) && f <= d && SameBefore(T, d, S, d)
    ensures
      var o := Rank(T, S, Language, FirstEmptied(T, S, d));
      forall i: nat :: o <= i < Rank(T, S, Kernel, f) ==> ValueAt(S, i) == MissingArg
  {
    hide ValueAt, Emptied, SameBefore;
    if f > 0 {
      SameMeansEmpty(T, d, S, f - 1);
      var g, e := f - 1, FirstEmptied(T, S, d);
      var o := Rank(T, S, Language, e);
      RanksDrift(T, S, d, g);
      OpenAlike(T, S, g);
      if Open(T, S, Kernel, g) && Rank(T, S, Kernel, g) >= o {
        assert Received(T, d, S, Kernel, g) == ValueAt(S, Rank(T, S, Kernel, g));
        SameAt(T, d, S, g);
        if Emptied(T, S, g) {
          EmptiedReceives(T, d, S, g);
        } else if g < e {
          BeforeEmptied(T, S, d, g);
        }
      }
    }
  }

  lemma SameAt(T: Pairs, d: nat, S: seq<Arg>, f: nat)
    requires SameBefore(T, d, S, d) && f < d
    ensures Received(T, d, S, Kernel, f) == Received(T, d, S, Language, f)
  {
  }

  /** An open formal before the first emptied one has a lower rank. */
  lemma BeforeEmptied(T: Pairs, S: seq<Arg>, d: nat, f: nat)
    requires f < FirstEmptied(T, S, d) && Open(T, S, Kernel, f)
    ensures Rank(T, S, Kernel, f) < Rank(T, S, Language, FirstEmptied(T, S, d))
  {
    OpenAlike(T, S, f);
    RanksDrift(T, S, d, f);
    RankIsIndex(Opens(T, S, Language), FirstEmptied(T, S, d), f);
  }

  /** And the other way round. */
  lemma EmptyMeansSame(T: Pairs, d: nat, S: seq<Arg>, f: nat)
    requires TagsFit(T, d, S)
    requires
      var o := Rank(T, S, Language, FirstEmptied(T, S, d));
      forall i: nat :: o <= i ==> ValueAt(S, i) == MissingArg
    ensures Received(T, d, S, Kernel, f) == Received(T, d, S, Language, f)
  {
    hide ValueAt, Emptied, Rank;
    OpenAlike(T, S, f);
    if f < d && Open(T, S, Kernel, f) {
      RanksDrift(T, S, d, f);
      if Emptied(T, S, f) {
        EmptiedReceives(T, d, S, f);
        EmptiedIsLate(T, S, d, f);
      }
    }
  }

  lemma EmptiedIsLate(T: Pairs, S: seq<Arg>, d: nat, f: nat)
    requires f < d && Emptied(T, S, f)
    ensures Rank(T, S, Kernel, f) >= Rank(T, S, Language, FirstEmptied(T, S, d))
  {
    RanksDrift(T, S, d, f);
  }

  // ----- What is left for `...` -----

  /** Nothing is left over exactly when every tag fits and the open formals take all untagged arguments. */
  lemma RestIsEmpty(T: Pairs, d: nat, S: seq<Arg>, p: Policy)
    requires TagsFit(T, d, S)
    ensures Leftover(T, PositionalArgs(T, d, S, p), S, |S|) == [] <==>
            !HasStray(T, S) && |Plain(S)| <= Rank(T, S, p, d)
  {
    hide *;
    var U := PositionalArgs(T, d, S, p);
    LeftoverInOrder(T, U, S, |S|);
    ListedAre(Spare(T, U), |S|);
    var at := Listed(Spare(T, U), |S|);
    if HasStray(T, S) {
      StrayIsSpare(T, d, S, p);
    } else if |Plain(S)| > Rank(T, S, p, d) {
      FirstNotTaken(T, d, S, p);
    } else if |at| > 0 {
      SpareIsLate(T, d, S, p, at[0]);
    }
  }

  lemma StrayIsSpare(T: Pairs, d: nat, S: seq<Arg>, p: Policy)
    requires TagsFit(T, d, S) && HasStray(T, S)
    ensures exists b: nat :: b < |S| && b in Spare(T, PositionalArgs(T, d, S, p))
  {
    PlainIsUntagged(S);
    var b: nat :| b < |S| && S[b].tag.Some? && !HasArg(T, b);
    assert b in Spare(T, PositionalArgs(T, d, S, p));
  }

  /** A spare argument is a stray one or stands behind the last open formal. */
  lemma SpareIsLate(T: Pairs, d: nat, S: seq<Arg>, p: Policy, b: nat)
    requires b < |S| && b in Spare(T, PositionalArgs(T, d, S, p))
    ensures HasStray(T, S) || |Plain(S)| > Rank(T, S, p, d)
  {
    PlainIsUntagged(S);
    if |Plain(S)| <= Rank(T, S, p, d) {
      assert PositionalArgs(T, d, S, p) == Plain(S);
    }
  }

  /** The untagged argument behind the last open formal is spare. */
  lemma FirstNotTaken(T: Pairs, d: nat, S: seq<Arg>, p: Policy)
    requires TagsFit(T, d, S) && Rank(T, S, p, d) < |Plain(S)|
    ensures
      var b := Plain(S)[Rank(T, S, p, d)];
      b < |S| && b in Spare(T, PositionalArgs(T, d, S, p))
  {
    PlainIsUntagged(S);
  }

  /** A list with a member less is shorter. */
  lemma {:induction false} ListedShorter(a: iset<nat>, b: iset<nat>, n: nat, x: nat)
    requires a <= b && x in b && x !in a
    ensures |Listed(a, n)| <= |Listed(b, n)| && (x < n ==> |Listed(a, n)| < |Listed(b, n)|)
  {
    if n > 0 { ListedShorter(a, b, n - 1, x); }
  }

  /** When the language runs out of open formals first, it leaves more for `...`. */
  lemma LanguageLeavesMore(T: Pairs, d: nat, S: seq<Arg>)
    requires TagsFit(T, d, S) && Rank(T, S, Language, d) < Rank(T, S, Kernel, d) && Rank(T, S, Language, d) < |Plain(S)|
    ensures
      |Leftover(T, PositionalArgs(T, d, S, Kernel), S, |S|)| <
      |Leftover(T, PositionalArgs(T, d, S, Language), S, |S|)|
  {
    var K, L := PositionalArgs(T, d, S, Kernel), PositionalArgs(T, d, S, Language);
    LeftoverInOrder(T, K, S, |S|);
    LeftoverInOrder(T, L, S, |S|);
    FirstNotTaken(T, d, S, Language);
    var r := Rank(T, S, Language, d);
    assert K[r] == Plain(S)[r];
    forall b: nat | b in L ensures b in K {
      var k: nat :| k < |L| && L[k] == b;
      assert K[k] == b;
    }
    ListedShorter(Spare(T, K), Spare(T, L), |S|, Plain(S)[r]);
  }

  // ----- The matched list -----

  ghost function DotsValue(F: seq<string>, S: seq<Arg>, p: Policy): Value {
    if Rest(F, S, p) == [] then MissingArg else Dots(Rest(F, S, p))
  }

  /** The one list that is a matching. */
  ghost function Actuals(F: seq<string>, S: seq<Arg>, p: Policy): (actuals: seq<Value>)
    ensures |actuals| == |F|
  {
    var T, d := TagPairs(F, S), DotsIndex(F);
    seq(|F|, f requires 0 <= f < |F| => if f == d then DotsValue(F, S, p) else Received(T, d, S, p, f))
  }

  ghost function MissingFlags(F: seq<string>, actuals: seq<Value>): seq<bool>
    requires |actuals| == |F|
  {
    seq(|F|, f requires 0 <= f < |F| => f != DotsIndex(F) && actuals[f] == MissingArg)
  }

  lemma MatchingIsUnique(F: seq<string>, S: seq<Arg>, p: Policy, actuals: seq<Value>, missing: seq<bool>)
    requires TagsFit(TagPairs(F, S), DotsIndex(F), S)
    ensures IsMatching(F, S, p, actuals, missing) <==>
            actuals == Actuals(F, S, p) && missing == MissingFlags(F, Actuals(F, S, p))
  {
    hide CellHolds, Received, Rest, TagPairs, TagsFit;
    var T, d := TagPairs(F, S), DotsIndex(F);
    forall f: nat | f < |actuals| && f != d
      ensures CellHolds(T, d, S, p, f, actuals[f]) <==> actuals[f] == Received(T, d, S, p, f)
    {
      CellIsReceived(T, d, S, p, f, actuals[f]);
    }
    ActualsAt(F, S, p);
    if CellsHold(T, d, S, p, actuals) {
      assert forall f: nat :: f < |actuals| && f != d ==> actuals[f] == Received(T, d, S, p, f);
    }
    if IsMatching(F, S, p, actuals, missing) {
      assert actuals == Actuals(F, S, p);
      assert missing == MissingFlags(F, actuals);
    }
  }

  lemma ActualsAt(F: seq<string>, S: seq<Arg>, p: Policy)
    ensures |Actuals(F, S, p)| == |F|
    ensures forall f: nat :: f < |F| && f != DotsIndex(F) ==>
              Actuals(F, S, p)[f] == Received(TagPairs(F, S), DotsIndex(F), S, p, f)
    ensures DotsIndex(F) < |F| ==> Actuals(F, S, p)[DotsIndex(F)] == DotsValue(F, S, p)
  {
    hide Received, DotsValue, TagPairs, DotsIndex;
  }

  /** With tags that fit, the outcomes agree when both calls are accepted or rejected and the lists are the same. */
  lemma OutcomesByActuals(F: seq<string>, S: seq<Arg>)
    requires TagsFit(TagPairs(F, S), DotsIndex(F), S)
    ensures OutcomesAgree(F, S) <==>
            && (Accepts(F, S, Kernel) <==> Accepts(F, S, Language))
            && (Accepts(F, S, Kernel) ==> Actuals(F, S, Kernel) == Actuals(F, S, Language))
  {
    hide Accepts, IsMatching, Actuals, TagsFit, TagPairs;
    var K, L := Actuals(F, S, Kernel), Actuals(F, S, Language);
    MatchingIsUnique(F, S, Kernel, K, MissingFlags(F, K));
    MatchingIsUnique(F, S, Language, K, MissingFlags(F, K));
    forall actuals, missing
      ensures IsMatching(F, S, Kernel, actuals, missing) <==> actuals == K && missing == MissingFlags(F, K)
      ensures IsMatching(F, S, Language, actuals, missing) <==> actuals == L && missing == MissingFlags(F, L)
    {
      MatchingIsUnique(F, S, Kernel, actuals, missing);
      MatchingIsUnique(F, S, Language, actuals, missing);
    }
  }

  lemma SameActuals(F: seq<string>, S: seq<Arg>)
    ensures Actuals(F, S, Kernel) == Actuals(F, S, Language) <==>
            && SameBefore(TagPairs(F, S), DotsIndex(F), S, DotsIndex(F))
            && (DotsIndex(F) < |F| ==> Rest(F, S, Kernel) == Rest(F, S, Language))
  {
    hide Rest, TagPairs, Received, Actuals, DotsIndex;
    var T, d := TagPairs(F, S), DotsIndex(F);
    var K, L := Actuals(F, S, Kernel), Actuals(F, S, Language);
    ActualsAt(F, S, Kernel);
    ActualsAt(F, S, Language);
    BehindDots(T, d, S);
    if SameBefore(T, d, S, d) {
      forall f: nat | f < |F| && f != d ensures K[f] == L[f] {}
      if d < |F| && Rest(F, S, Kernel) == Rest(F, S, Language) { assert K[d] == L[d]; }
    }
    if K == L {
      forall f: nat | f < d ensures Received(T, d, S, Kernel, f) == Received(T, d, S, Language, f) {
        assert K[f] == L[f];
      }
      if d < |F| { assert K[d] == L[d]; }
    }
  }

  /** From `...` on only tags count, under either policy. */
  lemma BehindDots(T: Pairs, d: nat, S: seq<Arg>)
    ensures forall f: nat :: f >= d ==> Received(T, d, S, Kernel, f) == Received(T, d, S, Language, f)
  {
  }

  // ----- The cases -----

  /** No emptied formal: nothing differs. */
  lemma NoneEmptied(F: seq<string>, S: seq<Arg>)
    requires FirstEmptied(TagPairs(F, S), S, DotsIndex(F)) == DotsIndex(F)
    ensures
      var T, d := TagPairs(F, S), DotsIndex(F);
      Rank(T, S, Kernel, d) == Rank(T, S, Language, d) && SameBefore(T, d, S, d)
    ensures Rest(F, S, Kernel) == Rest(F, S, Language)
  {
    hide TagPairs, Emptied, ValueAt, TagValue, Open;
    var T, d := TagPairs(F, S), DotsIndex(F);
    forall f: nat | f <= d ensures Rank(T, S, Kernel, f) == Rank(T, S, Language, f) { RanksDrift(T, S, d, f); }
    forall f: nat ensures Open(T, S, Kernel, f) && !Emptied(T, S, f) ==> Open(T, S, Language, f)
                  ensures Open(T, S, Language, f) ==> Open(T, S, Kernel, f) { OpenAlike(T, S, f); }
  }

  /** Few enough untagged arguments for the language: the rests are the same. */
  lemma FewPlain(F: seq<string>, S: seq<Arg>)
    requires
      var T, d := TagPairs(F, S), DotsIndex(F);
      |Plain(S)| <= Rank(T, S, Language, d) <= Rank(T, S, Kernel, d)
    ensures Rest(F, S, Kernel) == Rest(F, S, Language)
  {
    var T, d := TagPairs(F, S), DotsIndex(F);
    assert PositionalArgs(T, d, S, Kernel) == Plain(S) == PositionalArgs(T, d, S, Language);
  }

  /** An emptied formal: the received values agree exactly when the arguments behind it are empty. */
  lemma SameWhenEmpty(T: Pairs, d: nat, S: seq<Arg>)
    requires TagsFit(T, d, S) && |Plain(S)| <= Rank(T, S, Kernel, d)
    ensures SameBefore(T, d, S, d) <==> EmptyFrom(S, Rank(T, S, Language, FirstEmptied(T, S, d)))
  {
    hide Rank, Emptied, TagsFit, Received;
    if SameBefore(T, d, S, d) {
      SameMeansEmpty(T, d, S, d);
    } else if EmptyFrom(S, Rank(T, S, Language, FirstEmptied(T, S, d))) {
      forall f: nat | f < d ensures Received(T, d, S, Kernel, f) == Received(T, d, S, Language, f) {
        EmptyMeansSame(T, d, S, f);
      }
    }
  }

  /** The two policies come out the same exactly when nothing moves. */
  lemma OutcomesAgreeExactly(F: seq<string>, S: seq<Arg>)
    ensures OutcomesAgree(F, S) <==> NothingMoves(F, S)
  {
    hide TagPairs, FirstEmptied, Plain, Rank, EmptyFrom, HasStray, Leftover, PositionalArgs, OneToOne, OutcomesAgree,
         TagsFit, Actuals, SameBefore;
    var T, d := TagPairs(F, S), DotsIndex(F);
    if OneToOne(T) {
      TagPairsFit(F, S);
      OutcomesByActuals(F, S);
      SameActuals(F, S);
      RestIsEmpty(T, d, S, Kernel);
      RestIsEmpty(T, d, S, Language);
      RanksDrift(T, S, d, d);
      if FirstEmptied(T, S, d) == d {
        NoneEmptied(F, S);
      } else if |Plain(S)| <= Rank(T, S, Language, d) {
        FewPlain(F, S);
        SameWhenEmpty(T, d, S);
      } else if d < |F| {
        LanguageLeavesMore(T, d, S);
      }
    } else {
      ClashingTags(F, S);
    }
  }

  lemma ClashingTags(F: seq<string>, S: seq<Arg>)
    requires !OneToOne(TagPairs(F, S))
    ensures OutcomesAgree(F, S)
  {
  }

  lemma TagPairsFit(F: seq<string>, S: seq<Arg>)
    requires OneToOne(TagPairs(F, S))
    ensures TagsFit(TagPairs(F, S), DotsIndex(F), S)
  {
    TagPairsAre(F, S);
  }
}
