/** What the matching rules promise a caller of an R function. */
module MatchArgsLaws {
  import opened Wrappers
  import opened MatchArgs

  // ----- Empty tagged arguments -----

  /** No argument is both tagged and empty, as in `f(x = )`. */
  predicate NoEmptyTagged(S: seq<Arg>) {
    forall b :: 0 <= b < |S| && S[b].tag.Some? ==> S[b].value != MissingArg
  }

  lemma TagPairsAre(F: seq<string>, S: seq<Arg>)
    ensures forall f: nat, b: nat :: (f, b) in TagPairs(F, S) ==>
      && f < |F| && f != DotsIndex(F) && b < |S| && S[b].tag.Some? && S[b].tag.value <= F[f]
      && (DotsIndex(F) < f ==> S[b].tag == Some(F[f]))
  {
  }

  /** When K has all of L below n, and the first m entries of K's list are in L, so do they start L's list. */
  lemma {:induction false} ListedSubset(K: iset<nat>, L: iset<nat>, n: nat, m: nat)
    requires L <= K && m <= |Listed(K, n)|
    requires forall k :: 0 <= k < m ==> Listed(K, n)[k] in L
    ensures |Listed(L, n)| <= |Listed(K, n)|
    ensures Listed(K, n)[..m] <= Listed(L, n)
  {
    if n > 0 {
      var k, l := Listed(K, n - 1), Listed(L, n - 1);
      var m' := if m <= |k| then m else m - 1;
      assert Listed(K, n)[..|k|] == k;
      assert forall i :: 0 <= i < m' ==> k[i] == Listed(K, n)[i];
      ListedSubset(K, L, n - 1, m');
      if m <= |k| {
        assert Listed(K, n)[..m] == k[..m];
      } else {
        assert Listed(K, n)[m - 1] == n - 1;
      }
    }
  }

  /** The kernel's positional matching is the language's exactly when no positional argument
      reaches a formal that a tag has already bound. */
  lemma PoliciesAgree(T: Pairs, d: nat, S: seq<Arg>)
    requires forall b: nat, f: nat :: (f, b) in T ==> b < |S|
    ensures PositionalFormals(T, d, S, Kernel) == PositionalFormals(T, d, S, Language) <==>
            forall f <- PositionalFormals(T, d, S, Kernel) :: !HasFormal(T, f)
  {
    var OK, OL := Listed(Opens(T, S, Kernel), d), Listed(Opens(T, S, Language), d);
    var K, L := PositionalFormals(T, d, S, Kernel), PositionalFormals(T, d, S, Language);
    ListedAre(Opens(T, S, Language), d);
    if K == L {
      forall f | f in K ensures !HasFormal(T, f) {
        assert f in OL;
      }
    } else if forall f <- K :: !HasFormal(T, f) {
      assert forall k :: 0 <= k < |K| ==> K[k] == OK[k] && K[k] in K;
      ListedSubset(Opens(T, S, Kernel), Opens(T, S, Language), d, |K|);
    }
  }

  /** Without empty tagged arguments the kernel follows the language definition. */
  lemma KernelFollowsLanguage(F: seq<string>, S: seq<Arg>)
    requires NoEmptyTagged(S)
    ensures Accepts(F, S, Kernel) <==> Accepts(F, S, Language)
    ensures forall actuals, missing :: IsMatching(F, S, Kernel, actuals, missing) <==>
        IsMatching(F, S, Language, actuals, missing)
  {
    var T, d := TagPairs(F, S), DotsIndex(F);
    ListedAre(Opens(T, S, Kernel), d);
    PoliciesAgree(T, d, S);
    var K := PositionalFormals(T, d, S, Kernel);
    forall f | f in K ensures !HasFormal(T, f) {
      assert f in Listed(Opens(T, S, Kernel), d);
      TagPairsAre(F, S);
      assert forall b: nat :: (f, b) !in T;
    }
    assert |K| == PositionalCount(T, d, S, Kernel) && |K| == |PositionalFormals(T, d, S, Language)|;
    forall f: nat, v ensures CellHolds(T, d, S, Kernel, f, v) <==> CellHolds(T, d, S, Language, f, v) {
      assert forall b: nat :: Binds(T, d, S, Kernel, f, b) <==> Binds(T, d, S, Language, f, b);
    }
  }

  const SAMPLE_FORMALS := ["x", "y"]
  const SAMPLE_ARGS := [Arg(Some("x"), MissingArg), Arg(None, Object(1))]

  lemma SampleTags()
    ensures TagPairs(SAMPLE_FORMALS, SAMPLE_ARGS) == {(0, 0)} && DotsIndex(SAMPLE_FORMALS) == 2
  {
    var F, S := SAMPLE_FORMALS, SAMPLE_ARGS;
    assert (0, 0) in ExactPairs(F, S) by { assert NamesAgree(F, S, 0, 0); }
    assert TagPairs(F, S) == {(0, 0)};
    assert F[1..] == ["y"] && F[1..][1..] == [];
  }

  /** f(x = , 1) on function(x, y): the kernel hands 1 to x, the language definition to y. */
  lemma PoliciesDiffer()
    ensures IsMatching(SAMPLE_FORMALS, SAMPLE_ARGS, Kernel, [Object(1), MissingArg], [false, true])
    ensures IsMatching(SAMPLE_FORMALS, SAMPLE_ARGS, Language, [MissingArg, Object(1)], [true, false])
  {
    KernelMatchesSample();
    LanguageMatchesSample();
    hide *;
  }

  lemma KernelMatchesSample()
    ensures IsMatching(SAMPLE_FORMALS, SAMPLE_ARGS, Kernel, [Object(1), MissingArg], [false, true])
  {
    SampleTags();
    hide TagPairs, DotsIndex;
    var T: Pairs, S := {(0, 0)}, SAMPLE_ARGS;
    var plain, kernel := Untagged(S), Opens(T, S, Kernel);
    assert Listed(plain, 1) == [] && Listed(plain, 2) == [1];
    assert Listed(kernel, 1) == [0] && Listed(kernel, 2) == [0, 1];
    assert PositionalFormals(T, 2, S, Kernel) == [0] && PositionalArgs(T, 2, S, Kernel) == [1];
  }

  lemma LanguageMatchesSample()
    ensures IsMatching(SAMPLE_FORMALS, SAMPLE_ARGS, Language, [MissingArg, Object(1)], [true, false])
  {
    SampleTags();
    hide TagPairs, DotsIndex;
    var T: Pairs, S := {(0, 0)}, SAMPLE_ARGS;
    var plain, language := Untagged(S), Opens(T, S, Language);
    assert HasFormal(T, 0) && !HasFormal(T, 1);
    assert Listed(plain, 1) == [] && Listed(plain, 2) == [1];
    assert Listed(language, 1) == [] && Listed(language, 2) == [1];
    assert PositionalFormals(T, 2, S, Language) == [1] && PositionalArgs(T, 2, S, Language) == [1];
  }

  // ----- Conservation -----

  /** The arguments that neither the tags nor the list U used. */
  ghost function Spare(T: Pairs, U: seq<nat>): iset<nat> {
    iset b: nat | !HasArg(T, b) && b !in U
  }

  lemma {:induction false} LeftoverInOrder(T: Pairs, U: seq<nat>, S: seq<Arg>, n: nat)
    requires n <= |S|
    ensures
      var at, rest := Listed(Spare(T, U), n), Leftover(T, U, S, n);
      && |at| == |rest|
      && (forall k :: 0 <= k < |at| ==> at[k] < n && rest[k] == S[at[k]])
  {
    if n > 0 { LeftoverInOrder(T, U, S, n - 1); }
  }

  /** The positions of the arguments that `...` receives. */
  ghost function RestAt(F: seq<string>, S: seq<Arg>, p: Policy): seq<nat> {
    var T := TagPairs(F, S);
    Listed(Spare(T, PositionalArgs(T, DotsIndex(F), S, p)), |S|)
  }

  /** The formal that carries its tag went to a positional argument. */
  ghost predicate Overwritten(F: seq<string>, S: seq<Arg>, p: Policy, b: nat) {
    var T := TagPairs(F, S);
    exists f: nat :: (f, b) in T && f in PositionalFormals(T, DotsIndex(F), S, p)
  }

  ghost predicate Placed(F: seq<string>, S: seq<Arg>, p: Policy, b: nat) {
    exists f: nat :: Binds(TagPairs(F, S), DotsIndex(F), S, p, f, b)
  }

  /** Every argument lands in exactly one formal or, in order and with its tag, in `...`; only the
      kernel loses one, and only a tagged empty argument whose formal a positional one took. */
  lemma ArgumentsAreConserved(F: seq<string>, S: seq<Arg>, p: Policy)
    requires OneToOne(TagPairs(F, S))
    ensures
      var T, d := TagPairs(F, S), DotsIndex(F);
      && (forall b: nat :: b < |S| ==> (b in RestAt(F, S, p) <==> !Placed(F, S, p, b) && !Overwritten(F, S, p, b)))
      && (forall b: nat :: Overwritten(F, S, p, b) ==>
            !Placed(F, S, p, b) && p == Kernel && b < |S| && S[b].tag.Some? && S[b].value == MissingArg)
      && (forall f: nat, g: nat, b: nat, c: nat ::
            Binds(T, d, S, p, f, b) && Binds(T, d, S, p, g, c) ==> (f == g <==> b == c))
      && (forall f: nat, b: nat :: Binds(T, d, S, p, f, b) ==> f < |F| && f != d && b < |S|)
    ensures
      var at, rest := RestAt(F, S, p), Rest(F, S, p);
      && Ascending(at) && |rest| == |at|
      && (forall k :: 0 <= k < |at| ==> at[k] < |S| && rest[k] == S[at[k]])
  {
    var T, d := TagPairs(F, S), DotsIndex(F);
    var O, U := PositionalFormals(T, d, S, p), PositionalArgs(T, d, S, p);
    TagPairsAre(F, S);
    PositionalListsAre(T, d, S, p);
    LeftoverInOrder(T, U, S, |S|);
    ListedAre(Spare(T, U), |S|);
    hide TagPairs, PositionalFormals, PositionalArgs, Opens, Listed, Leftover, DotsIndex, OneToOne;
    forall b: nat | b < |S|
      ensures b in RestAt(F, S, p) <==> !Placed(F, S, p, b) && !Overwritten(F, S, p, b)
    {
      PlacedOrNot(F, S, p, b);
    }
    forall b: nat | Overwritten(F, S, p, b)
      ensures !Placed(F, S, p, b) && p == Kernel && b < |S| && S[b].tag.Some? && S[b].value == MissingArg
    {
      OverwrittenIsEmpty(F, S, p, b);
    }
    forall f: nat, g: nat, b: nat, c: nat | Binds(T, d, S, p, f, b) && Binds(T, d, S, p, g, c)
      ensures f == g <==> b == c
    {
      BindsOneToOne(T, O, U, f, g, b, c);
    }
  }

  lemma PlacedOrNot(F: seq<string>, S: seq<Arg>, p: Policy, b: nat)
    ensures
      var T := TagPairs(F, S);
      b in Spare(T, PositionalArgs(T, DotsIndex(F), S, p)) <==> !Placed(F, S, p, b) && !Overwritten(F, S, p, b)
  {
    var T, d := TagPairs(F, S), DotsIndex(F);
    var O, U := PositionalFormals(T, d, S, p), PositionalArgs(T, d, S, p);
    PositionalListsAre(T, d, S, p);
    hide TagPairs, PositionalFormals, PositionalArgs, DotsIndex, Opens;
    if f: nat :| (f, b) in T {
      assert f in O || Binds(T, d, S, p, f, b);
    } else if b in U {
      var k: nat :| k < |U| && U[k] == b;
      assert Binds(T, d, S, p, O[k], b);
    }
  }

  lemma OverwrittenIsEmpty(F: seq<string>, S: seq<Arg>, p: Policy, b: nat)
    requires OneToOne(TagPairs(F, S)) && Overwritten(F, S, p, b)
    ensures !Placed(F, S, p, b) && p == Kernel && b < |S| && S[b].tag.Some? && S[b].value == MissingArg
  {
    var T, d := TagPairs(F, S), DotsIndex(F);
    PositionalListsAre(T, d, S, p);
    TagPairsAre(F, S);
    hide TagPairs, PositionalFormals, PositionalArgs, DotsIndex;
    var f: nat :| (f, b) in T && f in PositionalFormals(T, d, S, p);
    assert HasArg(T, b);
  }

  /** The two lists that rule 3 pairs up. */
  lemma PositionalListsAre(T: Pairs, d: nat, S: seq<Arg>, p: Policy)
    ensures
      var O, U := PositionalFormals(T, d, S, p), PositionalArgs(T, d, S, p);
      && |O| == |U| && Ascending(O) && Ascending(U)
      && (forall k :: 0 <= k < |O| ==> O[k] < d && O[k] in Opens(T, S, p))
      && (forall k :: 0 <= k < |U| ==> U[k] < |S| && U[k] in Untagged(S))
  {
    ListedBelow(Opens(T, S, p), d);
    ListedBelow(Untagged(S), |S|);
    var O, U := PositionalFormals(T, d, S, p), PositionalArgs(T, d, S, p);
    forall k | 0 <= k < |O| ensures O[k] < d && O[k] in Opens(T, S, p) { ListedAt(Opens(T, S, p), d, k); }
    forall k | 0 <= k < |U| ensures U[k] < |S| && U[k] in Untagged(S) { ListedAt(Untagged(S), |S|, k); }
  }

  /** The partners a formal may have, from facts about the tag pairs and the two lists alone. */
  lemma BindsOneToOne(T: Pairs, O: seq<nat>, U: seq<nat>, f: nat, g: nat, b: nat, c: nat)
    requires OneToOne(T) && |O| == |U| && Ascending(O) && Ascending(U)
    requires forall k :: 0 <= k < |U| ==> !HasArg(T, U[k])
    requires Beside(O, U, f, b) || ((f, b) in T && f !in O)
    requires Beside(O, U, g, c) || ((g, c) in T && g !in O)
    ensures f == g <==> b == c
  {
  }

  /** A formal after `...` is bound only by an argument that carries its whole name. */
  lemma AfterDotsByNameOnly(F: seq<string>, S: seq<Arg>, p: Policy, f: nat, b: nat)
    requires DotsIndex(F) < f < |F|
    ensures Binds(TagPairs(F, S), DotsIndex(F), S, p, f, b) ==> b < |S| && S[b].tag == Some(F[f])
  {
    TagPairsAre(F, S);
    var T, d := TagPairs(F, S), DotsIndex(F);
    PositionalListsAre(T, d, S, p);
    assert !Beside(PositionalFormals(T, d, S, p), PositionalArgs(T, d, S, p), f, b);
  }

  // ----- Reordering tagged arguments -----

  /** S2 is S1 rearranged: position b moved to there[b], and untagged arguments kept their order. */
  ghost predicate IsReordering(S1: seq<Arg>, S2: seq<Arg>, there: seq<nat>, back: seq<nat>) {
    && |S1| == |S2| == |there| == |back|
    && (forall b :: 0 <= b < |S1| ==> there[b] < |S2| && back[there[b]] == b && S2[there[b]] == S1[b])
    && (forall c :: 0 <= c < |S2| ==> back[c] < |S1| && there[back[c]] == c)
    && (forall a, b :: 0 <= a < b < |S1| && S1[a].tag.None? && S1[b].tag.None? ==> there[a] < there[b])
  }

  lemma TagPairsMove(F: seq<string>, S1: seq<Arg>, S2: seq<Arg>, there: seq<nat>, back: seq<nat>)
    requires IsReordering(S1, S2, there, back)
    ensures forall f: nat, b: nat :: b < |S1| ==> ((f, b) in TagPairs(F, S1) <==> (f, there[b]) in TagPairs(F, S2))
  {
    var E1, E2 := ExactPairs(F, S1), ExactPairs(F, S2);
    forall f: nat, b: nat | b < |S1| ensures (f, b) in E1 <==> (f, there[b]) in E2 {
      if f < |F| { assert NamesAgree(F, S1, f, b) <==> NamesAgree(F, S2, f, there[b]); }
    }
    forall f: nat ensures HasFormal(E1, f) <==> HasFormal(E2, f) {
      if b: nat :| (f, b) in E1 { assert (f, there[b]) in E2; }
      if c: nat :| (f, c) in E2 { assert (f, back[c]) in E1; }
    }
    forall b: nat | b < |S1| ensures HasArg(E1, b) <==> HasArg(E2, there[b]) {
      if f: nat :| (f, b) in E1 { assert (f, there[b]) in E2; }
      if f: nat :| (f, there[b]) in E2 { assert (f, b) in E1; }
    }
    forall f: nat, b: nat | b < |S1| ensures (f, b) in PartialPairs(F, S1) <==> (f, there[b]) in PartialPairs(F, S2) {
      if f < |F| { assert TagFits(F, S1, f, b) <==> TagFits(F, S2, f, there[b]); }
    }
  }

  /** Reordering tagged arguments changes neither the outcome nor anything outside `...`. */
  lemma ReorderingTagged(F: seq<string>, S1: seq<Arg>, S2: seq<Arg>, there: seq<nat>, back: seq<nat>, p: Policy)
    requires IsReordering(S1, S2, there, back)
    ensures Accepts(F, S1, p) <==> Accepts(F, S2, p)
    ensures forall f: nat, v :: CellHolds(TagPairs(F, S1), DotsIndex(F), S1, p, f, v) <==>
                                CellHolds(TagPairs(F, S2), DotsIndex(F), S2, p, f, v)
  {
    var T1, T2, d := TagPairs(F, S1), TagPairs(F, S2), DotsIndex(F);
    TagPairsMove(F, S1, S2, there, back);
    TagPairsAre(F, S1);
    TagPairsAre(F, S2);
    SidesMove(T1, T2, S1, S2, there, back);
    OneToOneMoves(T1, T2, S1, S2, there, back);
    PositionsMove(T1, T2, d, S1, S2, there, back, p);
    var U1, U2 := PositionalArgs(T1, d, S1, p), PositionalArgs(T2, d, S2, p);
    NoneLeftMoves(T1, T2, S1, S2, there, back, U1, U2);
    forall f: nat, v ensures CellHolds(T1, d, S1, p, f, v) <==> CellHolds(T2, d, S2, p, f, v) {
      CellMoves(T1, T2, d, S1, S2, there, back, p, f, v);
    }
  }

  /** T2 is T1 with its arguments moved. */
  ghost predicate Moved(T1: Pairs, T2: Pairs, S1: seq<Arg>, S2: seq<Arg>, there: seq<nat>, back: seq<nat>) {
    && IsReordering(S1, S2, there, back)
    && (forall f: nat, b: nat :: (f, b) in T1 ==> b < |S1|)
    && (forall f: nat, b: nat :: (f, b) in T2 ==> b < |S2|)
    && (forall f: nat, b: nat :: b < |S1| ==> ((f, b) in T1 <==> (f, there[b]) in T2))
  }

  lemma SidesMove(T1: Pairs, T2: Pairs, S1: seq<Arg>, S2: seq<Arg>, there: seq<nat>, back: seq<nat>)
    requires Moved(T1, T2, S1, S2, there, back)
    ensures forall f: nat :: HasFormal(T1, f) <==> HasFormal(T2, f)
    ensures forall b: nat :: b < |S1| ==> (HasArg(T1, b) <==> HasArg(T2, there[b]))
    ensures forall p :: Opens(T1, S1, p) == Opens(T2, S2, p)
  {
    forall f: nat, c: nat | (f, c) in T2 ensures (f, back[c]) in T1 {
      assert there[back[c]] == c;
    }
    forall f: nat ensures HasFormal(T1, f) <==> HasFormal(T2, f) {
      if b: nat :| (f, b) in T1 { assert (f, there[b]) in T2; }
      if c: nat :| (f, c) in T2 { assert (f, back[c]) in T1; }
    }
    forall b: nat | b < |S1| ensures HasArg(T1, b) <==> HasArg(T2, there[b]) {
      if f: nat :| (f, b) in T1 { assert (f, there[b]) in T2; }
    }
    forall f: nat ensures Open(T1, S1, Kernel, f) <==> Open(T2, S2, Kernel, f) {
      if Open(T2, S2, Kernel, f) {
        forall b: nat | b < |S1| && (f, b) in T1 ensures S1[b].value == MissingArg {
          assert (f, there[b]) in T2;
        }
      }
    }
  }

  lemma OneToOneMoves(T1: Pairs, T2: Pairs, S1: seq<Arg>, S2: seq<Arg>, there: seq<nat>, back: seq<nat>)
    requires Moved(T1, T2, S1, S2, there, back)
    ensures OneToOne(T1) <==> OneToOne(T2)
  {
    forall f: nat, c: nat | (f, c) in T2 ensures (f, back[c]) in T1 {
      assert there[back[c]] == c;
    }
    if OneToOne(T2) {
      forall f: nat, b: nat, c: nat | (f, b) in T1 && (f, c) in T1 ensures b == c {
        assert (f, there[b]) in T2 && (f, there[c]) in T2;
      }
      forall f: nat, g: nat, b: nat | (f, b) in T1 && (g, b) in T1 ensures f == g {
        assert (f, there[b]) in T2 && (g, there[b]) in T2;
      }
    }
  }

  lemma SameEmpty(a: seq<nat>, b: seq<nat>)
    requires forall x: nat :: x in a <==> x in b
    ensures a == [] <==> b == []
  {
    if a != [] { assert a[0] in b; }
    if b != [] { assert b[0] in a; }
  }

  lemma {:induction false} SortedSame(a: seq<nat>, b: seq<nat>)
    requires Ascending(a) && Ascending(b) && forall x: nat :: x in a <==> x in b
    ensures a == b
  {
    SameEmpty(a, b);
    if |a| > 0 {
      var la, lb := a[|a| - 1], b[|b| - 1];
      assert la in b && lb in a;
      assert la == lb;
      var a', b' := a[..|a| - 1], b[..|b| - 1];
      forall x: nat ensures x in a' <==> x in b' {
        assert x in a' <==> x in a && x != la;
        assert x in b' <==> x in b && x != lb;
      }
      SortedSame(a', b');
    }
  }

  ghost function MovedTo(there: seq<nat>, U: seq<nat>): seq<nat>
    requires forall k :: 0 <= k < |U| ==> U[k] < |there|
  {
    seq(|U|, k requires 0 <= k < |U| => there[U[k]])
  }

  /** The untagged arguments keep their order, so rule 3 sees the same lists. */
  lemma PositionsMove(T1: Pairs, T2: Pairs, d: nat, S1: seq<Arg>, S2: seq<Arg>, there: seq<nat>, back: seq<nat>,
                      p: Policy)
    requires Moved(T1, T2, S1, S2, there, back) && Opens(T1, S1, p) == Opens(T2, S2, p)
    ensures PositionalFormals(T1, d, S1, p) == PositionalFormals(T2, d, S2, p)
    ensures
      var U1, U2 := PositionalArgs(T1, d, S1, p), PositionalArgs(T2, d, S2, p);
      && |U1| == |U2| == |PositionalFormals(T1, d, S1, p)|
      && (forall k :: 0 <= k < |U1| ==> U1[k] < |S1| && U2[k] == there[U1[k]])
  {
    UntaggedMove(S1, S2, there, back);
    var V1 := Listed(Untagged(S1), |S1|);
    var n := PositionalCount(T1, d, S1, p);
    hide Listed, Moved, Untagged;
    assert V1[..n] == PositionalArgs(T1, d, S1, p);
  }

  /** Untagged arguments move as a list. */
  lemma UntaggedMove(S1: seq<Arg>, S2: seq<Arg>, there: seq<nat>, back: seq<nat>)
    requires IsReordering(S1, S2, there, back)
    ensures
      var V1, V2 := Listed(Untagged(S1), |S1|), Listed(Untagged(S2), |S2|);
      && (forall k :: 0 <= k < |V1| ==> V1[k] < |S1|)
      && |V1| == |V2| && forall k :: 0 <= k < |V1| ==> V2[k] == there[V1[k]]
  {
    ListedAre(Untagged(S1), |S1|);
    ListedAre(Untagged(S2), |S2|);
    var V1, V2 := Listed(Untagged(S1), |S1|), Listed(Untagged(S2), |S2|);
    hide Listed;
    forall k | 0 <= k < |V1| ensures V1[k] < |S1| && S1[V1[k]].tag.None? {
      assert V1[k] in V1;
    }
    var M := MovedTo(there, V1);
    forall c: nat ensures c in V2 <==> c in M {
      if c in V2 { MovesFrom(S1, S2, there, back, V1, c); }
    }
    SortedSame(V2, M);
  }

  lemma MovesFrom(S1: seq<Arg>, S2: seq<Arg>, there: seq<nat>, back: seq<nat>, V1: seq<nat>, c: nat)
    requires IsReordering(S1, S2, there, back) && c < |S2| && S2[c].tag.None?
    requires forall b: nat :: b in V1 <==> b < |S1| && S1[b].tag.None?
    ensures (forall k :: 0 <= k < |V1| ==> V1[k] < |there|) && c in MovedTo(there, V1)
  {
    forall k | 0 <= k < |V1| ensures V1[k] < |there| { assert V1[k] in V1; }
    assert there[back[c]] == c && back[c] in V1;
    var k :| 0 <= k < |V1| && V1[k] == back[c];
    assert MovedTo(there, V1)[k] == c;
  }

  lemma NoneLeftMoves(T1: Pairs, T2: Pairs, S1: seq<Arg>, S2: seq<Arg>, there: seq<nat>, back: seq<nat>,
                      U1: seq<nat>, U2: seq<nat>)
    requires Moved(T1, T2, S1, S2, there, back)
    requires forall b: nat :: b < |S1| ==> (HasArg(T1, b) <==> HasArg(T2, there[b]))
    requires |U1| == |U2| && forall k :: 0 <= k < |U1| ==> U1[k] < |S1| && U2[k] == there[U1[k]]
    ensures Leftover(T1, U1, S1, |S1|) == [] <==> Leftover(T2, U2, S2, |S2|) == []
  {
    LeftoverInOrder(T1, U1, S1, |S1|);
    LeftoverInOrder(T2, U2, S2, |S2|);
    ListedAre(Spare(T1, U1), |S1|);
    ListedAre(Spare(T2, U2), |S2|);
    var at1, at2 := Listed(Spare(T1, U1), |S1|), Listed(Spare(T2, U2), |S2|);
    hide Listed, Leftover, HasArg, Spare;
    if |at1| > 0 {
      assert at1[0] in at1;
      SpareMoves(T1, T2, S1, S2, there, back, U1, U2, at1[0]);
    }
    if |at2| > 0 {
      assert at2[0] in at2;
      SpareMoves(T1, T2, S1, S2, there, back, U1, U2, back[at2[0]]);
    }
  }

  lemma SpareMoves(T1: Pairs, T2: Pairs, S1: seq<Arg>, S2: seq<Arg>, there: seq<nat>, back: seq<nat>,
                   U1: seq<nat>, U2: seq<nat>, b: nat)
    requires IsReordering(S1, S2, there, back) && b < |S1| && (HasArg(T1, b) <==> HasArg(T2, there[b]))
    requires |U1| == |U2| && forall k :: 0 <= k < |U1| ==> U1[k] < |S1| && U2[k] == there[U1[k]]
    ensures b in Spare(T1, U1) <==> there[b] in Spare(T2, U2)
  {
    hide HasArg;
    if b in U1 {
      var k :| 0 <= k < |U1| && U1[k] == b;
      assert U2[k] == there[b];
    }
    if there[b] in U2 {
      var k :| 0 <= k < |U2| && U2[k] == there[b];
      assert back[U2[k]] == U1[k];
    }
  }

  lemma CellMoves(T1: Pairs, T2: Pairs, d: nat, S1: seq<Arg>, S2: seq<Arg>, there: seq<nat>, back: seq<nat>,
                  p: Policy, f: nat, v: Value)
    requires Moved(T1, T2, S1, S2, there, back)
    requires HasFormal(T1, f) <==> HasFormal(T2, f)
    requires PositionalFormals(T1, d, S1, p) == PositionalFormals(T2, d, S2, p)
    requires
      var U1, U2 := PositionalArgs(T1, d, S1, p), PositionalArgs(T2, d, S2, p);
      && |U1| == |U2| == |PositionalFormals(T1, d, S1, p)|
      && (forall k :: 0 <= k < |U1| ==> U1[k] < |S1| && U2[k] == there[U1[k]])
    ensures CellHolds(T1, d, S1, p, f, v) <==> CellHolds(T2, d, S2, p, f, v)
  {
    var O, U1, U2 := PositionalFormals(T1, d, S1, p), PositionalArgs(T1, d, S1, p), PositionalArgs(T2, d, S2, p);
    hide PositionalFormals, PositionalArgs, HasFormal, Beside;
    forall b: nat | b < |S1| ensures Binds(T1, d, S1, p, f, b) <==> Binds(T2, d, S2, p, f, there[b]) {
      BesideMoves(S1, S2, there, back, O, U1, U2, f, b);
    }
    forall b: nat ensures Binds(T1, d, S1, p, f, b) ==> b < |S1| { BesideBelow(O, U1, |S1|, f, b); }
    forall c: nat ensures Binds(T2, d, S2, p, f, c) ==> c < |S2| && Binds(T1, d, S1, p, f, back[c]) {
      BesideBelow(O, U2, |S2|, f, c);
      if c < |S2| { assert there[back[c]] == c; }
    }
  }

  lemma BesideMoves(S1: seq<Arg>, S2: seq<Arg>, there: seq<nat>, back: seq<nat>, O: seq<nat>, U1: seq<nat>,
                    U2: seq<nat>, f: nat, b: nat)
    requires IsReordering(S1, S2, there, back) && b < |S1|
    requires |U1| == |U2| == |O| && forall k :: 0 <= k < |U1| ==> U1[k] < |S1| && U2[k] == there[U1[k]]
    ensures Beside(O, U1, f, b) <==> Beside(O, U2, f, there[b])
  {
    if Beside(O, U1, f, b) {
      var k: nat :| k < |O| && k < |U1| && O[k] == f && U1[k] == b;
      assert U2[k] == there[b];
    }
    if Beside(O, U2, f, there[b]) {
      var k: nat :| k < |O| && k < |U2| && O[k] == f && U2[k] == there[b];
      assert back[U2[k]] == U1[k];
    }
  }

  lemma BesideBelow(O: seq<nat>, U: seq<nat>, n: nat, f: nat, b: nat)
    requires forall k :: 0 <= k < |U| ==> U[k] < n
    ensures Beside(O, U, f, b) ==> b < n
  {
  }
}
