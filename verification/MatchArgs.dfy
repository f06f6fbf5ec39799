/**
 Matching the arguments of an R call to the formals of a closure.

 The three rules (section 4.3.2 of the R Language Definition) are stated as sets of pairs
 (formal position, argument position). The in-place passes are proved against them on every
 input. Pair lists are sequences and arrays indexed by position.
 */
module MatchArgs {
  import opened Wrappers

  const DOTS := "..."

  // `MissingArg` is R's empty argument; `Dots` is the list bound to `...`.
  datatype Value = MissingArg | Object(id: int) | Dots(args: seq<Arg>)

  datatype Arg = Arg(tag: Option<string>, value: Value)

  datatype MatchError =
    | MultipleActuals(formal: string)
    | MultipleFormals(position: nat) // counted from 1
    | UnusedArguments(args: seq<Arg>)

  datatype Result =
    | Matched(actuals: seq<Value>, missing: seq<bool>)
    | Failed(error: MatchError)

  // ----- Rules 1 and 2: matching by tag -----

  type Pairs = set<(nat, nat)>

  /** The position of the first `...`, or |F| when there is none. */
  function DotsIndex(F: seq<string>): (d: nat)
    ensures d <= |F|
    ensures d < |F| ==> F[d] == DOTS
    ensures forall f :: 0 <= f < d ==> F[f] != DOTS
  {
    if F == [] || F[0] == DOTS then 0 else
    assert forall f :: 0 < f < |F| ==> F[f] == F[1..][f - 1];
    1 + DotsIndex(F[1..])
  }

  ghost predicate HasFormal(R: Pairs, f: nat) { exists b: nat :: (f, b) in R }

  ghost predicate HasArg(R: Pairs, b: nat) { exists f: nat :: (f, b) in R }

  /** Rule 1: the argument carries the name of the formal. */
  predicate NamesAgree(F: seq<string>, S: seq<Arg>, f: nat, b: nat)
    requires f < |F| && b < |S|
  {
    F[f] != DOTS && S[b].tag == Some(F[f])
  }

  ghost function ExactPairs(F: seq<string>, S: seq<Arg>): Pairs {
    set f: nat, b: nat | f < |F| && b < |S| && NamesAgree(F, S, f, b) :: (f, b)
  }

  /** The tag is the first part of the formal's name; after `...` it must be the whole name. */
  predicate TagFits(F: seq<string>, S: seq<Arg>, f: nat, b: nat)
    requires f < |F| && b < |S|
  {
    S[b].tag.Some? &&
    if DotsIndex(F) < f then S[b].tag.value == F[f] else f != DotsIndex(F) && S[b].tag.value <= F[f]
  }

  /** Rule 2: partial matching among what rule 1 left over. */
  ghost function PartialPairs(F: seq<string>, S: seq<Arg>): Pairs {
    var E := ExactPairs(F, S);
    set f: nat, b: nat | f < |F| && b < |S| && !HasFormal(E, f) && !HasArg(E, b) && TagFits(F, S, f, b) :: (f, b)
  }

  ghost function TagPairs(F: seq<string>, S: seq<Arg>): Pairs {
    ExactPairs(F, S) + PartialPairs(F, S)
  }

  /** No formal is matched by two arguments, and no argument matches two formals. */
  ghost predicate OneToOne(R: Pairs) {
    && (forall f: nat, b: nat, c: nat :: (f, b) in R && (f, c) in R ==> b == c)
    && (forall f: nat, g: nat, b: nat :: (f, b) in R && (g, b) in R ==> f == g)
  }

  /** The error names a formal with two arguments, or an argument with two formals. */
  ghost predicate GenuineConflict(F: seq<string>, R: Pairs, error: MatchError) {
    match error
    case MultipleActuals(name) =>
      exists f: nat, b: nat, c: nat :: f < |F| && F[f] == name && b != c && (f, b) in R && (f, c) in R
    case MultipleFormals(position) =>
      exists f: nat, g: nat, b: nat :: position == b + 1 && f != g && (f, b) in R && (g, b) in R
    case UnusedArguments(_) => false
  }

  // ----- Rule 3: matching by position, and `...` -----

  /** How a tagged empty argument such as `f(x = )` counts: under `Language` it occupies its
      formal like any other argument; under `Kernel` the formal stays open for rule 3. */
  datatype Policy = Language | Kernel

  ghost predicate Open(T: Pairs, S: seq<Arg>, p: Policy, f: nat) {
    match p
    case Language => !HasFormal(T, f)
    case Kernel => forall b: nat :: b < |S| && (f, b) in T ==> S[b].value == MissingArg
  }

  /** The members of s below n, in ascending order. */
  ghost function Listed(s: iset<nat>, n: nat): seq<nat> {
    if n == 0 then [] else Listed(s, n - 1) + if n - 1 in s then [n - 1] else []
  }

  ghost function Opens(T: Pairs, S: seq<Arg>, p: Policy): iset<nat> {
    iset f: nat | Open(T, S, p, f)
  }

  ghost function Untagged(S: seq<Arg>): iset<nat> {
    iset b: nat | b < |S| && S[b].tag.None?
  }

  /** Rule 3 pairs the k-th open formal before `...` (at d) with the k-th untagged argument. */
  ghost function PositionalCount(T: Pairs, d: nat, S: seq<Arg>, p: Policy): nat {
    var o, u := |Listed(Opens(T, S, p), d)|, |Listed(Untagged(S), |S|)|;
    if o < u then o else u
  }

  ghost function PositionalFormals(T: Pairs, d: nat, S: seq<Arg>, p: Policy): seq<nat> {
    Listed(Opens(T, S, p), d)[..PositionalCount(T, d, S, p)]
  }

  ghost function PositionalArgs(T: Pairs, d: nat, S: seq<Arg>, p: Policy): seq<nat> {
    Listed(Untagged(S), |S|)[..PositionalCount(T, d, S, p)]
  }

  /** The k-th entries of the two lists belong together. */
  ghost predicate Beside(O: seq<nat>, U: seq<nat>, f: nat, b: nat) {
    exists k: nat :: k < |O| && k < |U| && O[k] == f && U[k] == b
  }

  /** The formal f receives the argument b, by position or else by tag. */
  ghost predicate Binds(T: Pairs, d: nat, S: seq<Arg>, p: Policy, f: nat, b: nat) {
    var O := PositionalFormals(T, d, S, p);
    Beside(O, PositionalArgs(T, d, S, p), f, b) || ((f, b) in T && f !in O)
  }

  /** The arguments among the first n that neither the tags nor the list U used, with their tags. */
  ghost function Leftover(T: Pairs, U: seq<nat>, S: seq<Arg>, n: nat): seq<Arg>
    requires n <= |S|
  {
    if n == 0 then [] else
    Leftover(T, U, S, n - 1) + if HasArg(T, n - 1) || n - 1 in U then [] else [S[n - 1]]
  }

  ghost function Rest(F: seq<string>, S: seq<Arg>, p: Policy): seq<Arg> {
    var T := TagPairs(F, S);
    Leftover(T, PositionalArgs(T, DotsIndex(F), S, p), S, |S|)
  }

  /** The call is legal: tags match one to one, and nothing is left over without a `...`. */
  ghost predicate Accepts(F: seq<string>, S: seq<Arg>, p: Policy) {
    OneToOne(TagPairs(F, S)) && (DotsIndex(F) == |F| ==> Rest(F, S, p) == [])
  }

  /** The value v is right for the formal f: the argument bound to it, or the empty argument. */
  ghost predicate CellHolds(T: Pairs, d: nat, S: seq<Arg>, p: Policy, f: nat, v: Value) {
    && (forall b: nat :: Binds(T, d, S, p, f, b) ==> b < |S| && v == S[b].value)
    && (!HasFormal(T, f) && f !in PositionalFormals(T, d, S, p) ==> v == MissingArg)
  }

  /** Every formal other than `...` holds the right value. */
  ghost predicate CellsHold(T: Pairs, d: nat, S: seq<Arg>, p: Policy, actuals: seq<Value>) {
    forall f: nat :: f < |actuals| && f != d ==> CellHolds(T, d, S, p, f, actuals[f])
  }

  /** What the matched list holds: the bound arguments, `...` with what is left, and the missing flags. */
  ghost predicate IsMatching(F: seq<string>, S: seq<Arg>, p: Policy, actuals: seq<Value>, missing: seq<bool>) {
    var T, d := TagPairs(F, S), DotsIndex(F);
    && |actuals| == |missing| == |F|
    && CellsHold(T, d, S, p, actuals)
    && (d < |F| ==> actuals[d] == if Rest(F, S, p) == [] then MissingArg else Dots(Rest(F, S, p)))
    && (forall f: nat :: f < |F| ==> missing[f] == (f != d && actuals[f] == MissingArg))
  }

  // ----- The two passes over tags -----

  /** fm and bm list, for every formal and argument, its partner in R (or -1). */
  ghost predicate Maps(R: Pairs, fm: seq<int>, bm: seq<int>) {
    && (forall f: nat :: f < |fm| ==> -1 <= fm[f] < |bm|)
    && (forall b: nat :: b < |bm| ==> -1 <= bm[b] < |fm|)
    && (forall f: nat, b: nat {:trigger (f, b) in R} {:trigger fm[f], bm[b]} :: f < |fm| && b < |bm| ==>
          ((f, b) in R <==> fm[f] == b) && ((f, b) in R <==> bm[b] == f))
    && (forall f: nat, b: nat :: (f, b) in R ==> f < |fm| && b < |bm|)
  }

  lemma MapsExtend(R: Pairs, R': Pairs, fm: seq<int>, bm: seq<int>, f: nat, x: int)
    requires Maps(R, fm, bm) && f < |fm| && -1 <= x < |bm| && (x >= 0 ==> fm[f] < 0 && bm[x] < 0)
    requires R' == if x < 0 then R else R + {(f, x as nat)}
    ensures Maps(R', Put(fm, f, x), Put(bm, x, f))
  {
  }

  lemma MapsMeaning(R: Pairs, fm: seq<int>, bm: seq<int>)
    requires Maps(R, fm, bm)
    ensures OneToOne(R)
    ensures forall f: nat :: f < |fm| ==> (fm[f] >= 0 <==> HasFormal(R, f))
    ensures forall f: nat :: f < |fm| && fm[f] >= 0 ==> (f, fm[f]) in R
    ensures forall b: nat :: b < |bm| ==> (bm[b] >= 0 <==> HasArg(R, b))
    ensures forall b: nat :: b < |bm| && bm[b] >= 0 ==> (bm[b], b) in R
  {
    forall f: nat | f < |fm| && fm[f] >= 0 ensures (f, fm[f]) in R {
      var b: nat := fm[f];
      assert bm[b] == bm[b];
    }
    forall b: nat | b < |bm| && bm[b] >= 0 ensures (bm[b], b) in R {
      var f: nat := bm[b];
      assert fm[f] == fm[f];
    }
  }

  /** Records a partner, if there is one. */
  ghost function Put(m: seq<int>, i: int, v: int): (r: seq<int>)
    requires i < |m|
    ensures |r| == |m|
  {
    if i < 0 || v < 0 then m else m[i := v]
  }

  ghost function RowsBelow(R: Pairs, n: nat): Pairs {
    set p <- R | p.0 < n
  }

  lemma RowsBelowStep(R: Pairs, f: nat, x: int)
    requires forall b: nat :: (f, b) in R <==> b == x
    ensures RowsBelow(R, f + 1) == if x < 0 then RowsBelow(R, f) else RowsBelow(R, f) + {(f, x as nat)}
  {
    if x >= 0 {
      assert (f, x as nat) in R;
    }
  }

  /** The cells of the list under construction, and the marks. */
  datatype Cells = Cells(actual: seq<Value>, missing: seq<bool>, argused: seq<int>, fargused: seq<int>)

  /** The cells after formal f took argument x (none when x is -1). */
  ghost function Take(c: Cells, S: seq<Arg>, f: nat, x: int, mark: int): (r: Cells)
    requires f < |c.actual| == |c.missing| == |c.fargused| && x < |S| == |c.argused|
    ensures x < 0 ==> r == c
  {
    if x < 0 then c else
    Cells(c.actual[f := S[x].value],
          if S[x].value == MissingArg then c.missing else c.missing[f := false],
          c.argused[x := mark], c.fargused[f := mark])
  }

  /** The cells hold what fm placed there. */
  ghost predicate Holds(S: seq<Arg>, fm: seq<int>, c: Cells) {
    && |c.actual| == |c.missing| == |c.fargused| == |fm| && |c.argused| == |S|
    && (forall f: nat :: f < |fm| ==> fm[f] < |S| && c.actual[f] == if fm[f] < 0 then MissingArg else S[fm[f]].value)
    && (forall f: nat :: f < |fm| ==> c.missing[f] == (c.actual[f] == MissingArg))
  }

  /** The pair lists as the passes see them: actuals, their MISSING bits, the arguments' ARGUSED
      levels and the `fargused` vector. */
  class Workspace {
    const F: seq<string>
    const S: seq<Arg>
    var actual: array<Value>
    var missing: array<bool>
    var argused: array<int>
    var fargused: array<int>

    ghost predicate Valid()
      reads this
    {
      actual.Length == missing.Length == fargused.Length == |F| && argused.Length == |S| && argused != fargused
    }

    ghost function Now(): Cells
      reads this, actual, missing, argused, fargused
    {
      Cells(actual[..], missing[..], argused[..], fargused[..])
    }

    constructor (F: seq<string>, S: seq<Arg>)
      ensures Valid() && fresh(actual) && fresh(missing) && fresh(argused) && fresh(fargused)
      ensures this.F == F && this.S == S
      ensures Now() == Cells(seq(|F|, _ => MissingArg), seq(|F|, _ => true), seq(|S|, _ => 0), seq(|F|, _ => 0))
    {
      this.F, this.S := F, S;
      actual := new Value[|F|](_ => MissingArg);
      missing := new bool[|F|](_ => true);
      argused := new int[|S|](_ => 0);
      fargused := new int[|F|](_ => 0);
      new;
      assert actual[..] == seq(|F|, _ => MissingArg);
    }

    /** SETCAR, SET_MISSING, SET_ARGUSED and the formal's mark. */
    method Assign(f: nat, b: nat, mark: int)
      requires Valid() && f < |F| && b < |S|
      modifies actual, missing, argused, fargused
      ensures Now() == Take(old(Now()), S, f, b, mark)
    {
      actual[f] := S[b].value;
      if S[b].value != MissingArg {
        missing[f] := false;
      }
      argused[b] := mark;
      fargused[f] := mark;
    }

    /** The first pass for one formal: x is the argument that carries its name, or -1. */
    method ExactRow(f: nat, ghost E: Pairs, ghost fm: seq<int>, ghost bm: seq<int>)
      returns (err: Option<MatchError>, ghost x: int)
      requires Valid() && f < |F| && F[f] != DOTS && E == ExactPairs(F, S)
      requires |fm| == |F| && |bm| == |S| && InFirstPass(S, E, f, fm, bm, Now())
      modifies actual, missing, argused, fargused
      ensures err.Some? ==> GenuineConflict(F, E, err.value)
      ensures err.None? ==> -1 <= x < |S| && forall b: nat :: (f, b) in E <==> b == x
      ensures err.None? && x >= 0 ==> bm[x] < 0
      ensures err.None? ==> Now() == Take(old(Now()), S, f, x, 2)
    {
      err, x := None, -1;
      MapsMeaning(RowsBelow(E, f), fm, bm);
      for b := 0 to |S|
        invariant -1 <= x < b && (x >= 0 ==> bm[x] < 0)
        invariant forall c: nat :: c < b ==> ((f, c) in E <==> c == x)
        invariant Now() == Take(old(Now()), S, f, x, 2)
      {
        if S[b].tag.Some? && F[f] == S[b].tag.value {
          assert (f, b as nat) in E;
          if fargused[f] == 2 {
            assert (f, x as nat) in E;
            return Some(MultipleActuals(F[f])), x;
          }
          if argused[b] == 2 {
            return Some(MultipleFormals(b + 1)), x;
          }
          Assign(f, b, 2);
          x := b;
        }
      }
    }

    /** First pass: exact matches by tag. */
    method ExactPass() returns (err: Option<MatchError>, ghost fm: seq<int>, ghost bm: seq<int>)
      requires Valid()
      requires Now() == Cells(seq(|F|, _ => MissingArg), seq(|F|, _ => true), seq(|S|, _ => 0), seq(|F|, _ => 0))
      modifies actual, missing, argused, fargused
      ensures err.Some? ==> GenuineConflict(F, ExactPairs(F, S), err.value)
      ensures err.None? ==> |fm| == |F| && |bm| == |S|
      ensures err.None? ==> InSecondPass(S, ExactPairs(F, S), PartialPairs(F, S), 0, fm, bm, Now())
    {
      err := None;
      ghost var E := ExactPairs(F, S);
      fm, bm := seq(|F|, _ => -1), seq(|S|, _ => -1);
      FirstPassStarts(S, E, fm, bm, Now());
      hide *;
      for f := 0 to |F|
        invariant err.None? && |fm| == |F| && |bm| == |S|
        invariant InFirstPass(S, E, f, fm, bm, Now())
      {
        ghost var x := -1;
        ghost var before := Now();
        if F[f] != DOTS {
          err, x := ExactRow(f, E, fm, bm);
          if err.Some? {
            return;
          }
        }
        FirstPassStep(S, E, f, fm, bm, before, x);
        fm, bm := Put(fm, f, x), Put(bm, x, f);
      }
      FirstPassEnds(F, S, fm, bm, Now());
    }

    /** The second pass for one formal that no argument names: x is the argument it took, or -1. */
    method PartialRow(f: nat, seendots: bool, ghost E: Pairs, ghost P: Pairs, ghost fm: seq<int>, ghost bm: seq<int>)
      returns (err: Option<MatchError>, ghost x: int)
      requires Valid() && f < |F| && f != DotsIndex(F) && seendots == (DotsIndex(F) < f) && fargused[f] == 0
      requires E == ExactPairs(F, S) && P == PartialPairs(F, S)
      requires |fm| == |F| && |bm| == |S| && InSecondPass(S, E, P, f, fm, bm, Now())
      modifies actual, missing, argused, fargused
      ensures err.Some? ==> GenuineConflict(F, TagPairs(F, S), err.value)
      ensures err.None? ==> -1 <= x < |S| && forall b: nat :: (f, b) in P <==> b == x
      ensures err.None? && x >= 0 ==> bm[x] < 0 && !HasArg(E, x)
      ensures err.None? ==> Now() == Take(old(Now()), S, f, x, 1)
    {
      err, x := None, -1;
      MapsMeaning(E + RowsBelow(P, f), fm, bm);
      for b := 0 to |S|
        invariant -1 <= x < b && (x >= 0 ==> bm[x] < 0 && !HasArg(E, x))
        invariant forall c: nat :: c < b ==> ((f, c) in P <==> c == x)
        invariant Now() == Take(old(Now()), S, f, x, 1)
      {
        if argused[b] != 2 && S[b].tag.Some? && PMatch(F[f], S[b].tag.value, seendots) {
          assert (f, b as nat) in P;
          if argused[b] != 0 {
            return Some(MultipleFormals(b + 1)), x;
          }
          if fargused[f] == 1 {
            assert (f, x as nat) in P;
            return Some(MultipleActuals(F[f])), x;
          }
          Assign(f, b, 1);
          x := b;
        }
      }
    }

    /** Second pass: partial matches by tag; it also finds the first `...`. */
    method PartialPass(ghost fm0: seq<int>, ghost bm0: seq<int>)
      returns (err: Option<MatchError>, dots: int, ghost fm: seq<int>, ghost bm: seq<int>)
      requires Valid() && |fm0| == |F| && |bm0| == |S|
      requires InSecondPass(S, ExactPairs(F, S), PartialPairs(F, S), 0, fm0, bm0, Now())
      modifies actual, missing, argused, fargused
      ensures err.Some? ==> GenuineConflict(F, TagPairs(F, S), err.value)
      ensures err.None? ==> dots == if DotsIndex(F) < |F| then DotsIndex(F) else -1
      ensures err.None? ==> |fm| == |F| && |bm| == |S|
      ensures err.None? ==> InSecondPass(S, ExactPairs(F, S), PartialPairs(F, S), |F|, fm, bm, Now())
    {
      err, dots := None, -1;
      ghost var E, P := ExactPairs(F, S), PartialPairs(F, S);
      fm, bm := fm0, bm0;
      var seendots := false;
      hide InSecondPass, Put, Take, ExactPairs, PartialPairs, GenuineConflict;
      for f := 0 to |F|
        invariant err.None? && |fm| == |F| && |bm| == |S|
        invariant seendots == (DotsIndex(F) < f) && dots == if DotsIndex(F) < f then DotsIndex(F) else -1
        invariant InSecondPass(S, E, P, f, fm, bm, Now())
      {
        ghost var x := -1;
        ghost var before := Now();
        DotsUnmarked(F, S, f, fm, bm, before);
        if fargused[f] == 0 {
          if F[f] == DOTS && !seendots {
            dots := f;
            seendots := true;
          } else {
            err, x := PartialRow(f, seendots, E, P, fm, bm);
            if err.Some? {
              return;
            }
          }
        }
        SecondPassStep(F, S, E, P, f, fm, bm, before, x);
        fm, bm := Put(fm, f, x), Put(bm, x, f);
      }
    }

    /** A positional match: the formal is not marked. */
    method AssignPositional(f: nat, b: nat)
      requires Valid() && f < |F| && b < |S|
      modifies actual, missing, argused
      ensures Now() == Take(old(Now()), S, f, b, 1).(fargused := old(fargused[..]))
    {
      actual[f] := S[b].value;
      if S[b].value != MissingArg {
        missing[f] := false;
      }
      argused[b] := 1;
    }

    /** One turn of the third pass. */
    method PositionalStep(f: nat, b: nat, ghost opens: iset<nat>, ghost plain: iset<nat>, ghost before: Cells)
      returns (f': nat, b': nat, seendots: bool)
      requires Valid() && f < |F| && b < |S| && f <= DotsIndex(F)
      requires ThirdPassReady(opens, plain, S, before)
      requires HandedOut(S, Listed(opens, f), Listed(plain, b), before, Now())
      modifies actual, missing, argused
      ensures b' <= |S| && f' + b' >= f + b + 1 && seendots == (f == DotsIndex(F))
      ensures if seendots then f' == f + 1 else f' <= DotsIndex(F)
      ensures HandedOut(S, Listed(opens, if seendots then f else f'), Listed(plain, b'), before, Now())
    {
      hide HandedOut, ThirdPassReady, Listed;
      StillFresh(opens, plain, S, f, b, before, Now());
      seendots := F[f] == DOTS;
      if seendots {
        f', b' := f + 1, b;
      } else if actual[f] != MissingArg {
        f', b' := f + 1, b;
      } else if argused[b] != 0 || S[b].tag.Some? {
        f', b' := f, b + 1;
      } else {
        HandOneMore(opens, plain, S, before, Now(), f, b);
        AssignPositional(f, b);
        f', b' := f + 1, b + 1;
      }
    }

    /** Third pass: matches based on order, over the open formals and the untagged arguments. */
    method PositionalPass(ghost opens: iset<nat>, ghost plain: iset<nat>)
      requires Valid() && ThirdPassReady(opens, plain, S, Now())
      modifies actual, missing, argused
      ensures
        var O, U := Listed(opens, DotsIndex(F)), Listed(plain, |S|);
        var k := if |O| < |U| then |O| else |U|;
        HandedOut(S, O[..k], U[..k], old(Now()), Now())
    {
      var f: nat, b: nat, seendots := 0, 0, false;
      ghost var before := Now();
      assert HandedOut(S, Listed(opens, 0), Listed(plain, 0), before, Now());
      hide HandedOut, ThirdPassReady, Listed;
      while f < |F| && b < |S| && !seendots
        invariant b <= |S| && (if seendots then f == DotsIndex(F) + 1 else f <= DotsIndex(F))
        invariant HandedOut(S, Listed(opens, if seendots then DotsIndex(F) else f), Listed(plain, b), before, Now())
        decreases |F| - f + |S| - b
      {
        f, b, seendots := PositionalStep(f, b, opens, plain, before);
      }
      PassesMeet(opens, plain, DotsIndex(F), if seendots then DotsIndex(F) else f, b, |S|);
    }

    /** The three passes over fresh cells. */
    method RunPasses() returns (err: Option<MatchError>, dots: int)
      requires Valid()
      requires Now() == Cells(seq(|F|, _ => MissingArg), seq(|F|, _ => true), seq(|S|, _ => 0), seq(|F|, _ => 0))
      modifies actual, missing, argused, fargused
      ensures err.Some? ==> GenuineConflict(F, TagPairs(F, S), err.value)
      ensures err.None? ==> OneToOne(TagPairs(F, S)) && dots == if DotsIndex(F) < |F| then DotsIndex(F) else -1
      ensures err.None? ==> Filled(F, S, actual[..], missing[..])
      ensures err.None? ==> Unused(S, argused[..], |S|) == Rest(F, S, Kernel)
    {
      dots := -1;
      ghost var fm, bm;
      err, fm, bm := ExactPass();
      if err.Some? {
        return;
      }
      err, dots, fm, bm := PartialPass(fm, bm);
      if err.Some? {
        return;
      }
      AfterTagPasses(F, S, fm, bm, Now());
      ghost var before := Now();
      PositionalPass(Opens(TagPairs(F, S), S, Kernel), Untagged(S));
      AfterThirdPass(F, S, fm, bm, before, Now());
    }

    /** Collects the unused arguments with their tags, for `...` or for the error message. */
    method CollectUnused() returns (rest: seq<Arg>)
      requires Valid()
      ensures rest == Unused(S, argused[..], |S|)
    {
      rest := [];
      for b := 0 to |S|
        invariant rest == Unused(S, argused[..], b)
      {
        if argused[b] == 0 {
          rest := rest + [S[b]];
        }
      }
    }
  }

  /** `matchArgs`: succeeds exactly on the legal calls, and then returns the matching. */
  method MatchArgs(F: seq<string>, S: seq<Arg>) returns (r: Result)
    ensures r.Matched? <==> Accepts(F, S, Kernel)
    ensures r.Matched? ==> IsMatching(F, S, Kernel, r.actuals, r.missing)
    ensures r.Failed? ==> match r.error
      case UnusedArguments(args) => OneToOne(TagPairs(F, S)) && DotsIndex(F) == |F| && args == Rest(F, S, Kernel) != []
      case _ => GenuineConflict(F, TagPairs(F, S), r.error)
  {
    var w := new Workspace(F, S);
    var err, dots := w.RunPasses();
    if err.Some? {
      return Failed(err.value);
    }
    DotsFilled(F, S, w.actual[..], w.missing[..]);
    var rest := w.CollectUnused();
    if dots >= 0 {
      w.missing[dots] := false;
      if rest != [] {
        w.actual[dots] := Dots(rest);
      }
    } else if rest != [] {
      return Failed(UnusedArguments(rest));
    }
    return Matched(w.actual[..], w.missing[..]);
  }

  /** The cells after the arguments U were handed to the formals O, one by one. */
  ghost predicate HandedOut(S: seq<Arg>, O: seq<nat>, U: seq<nat>, c0: Cells, c1: Cells) {
    && |O| == |U| && |c1.actual| == |c0.actual| == |c1.missing| == |c1.fargused| && |c1.argused| == |c0.argused| == |S|
    && (forall i :: 0 <= i < |O| ==> O[i] < |c0.actual| && U[i] < |S|)
    && (forall i :: 0 <= i < |O| ==> c1.actual[O[i]] == S[U[i]].value && c1.argused[U[i]] != 0)
    && (forall f: nat :: f < |c0.actual| && f !in O ==> c1.actual[f] == c0.actual[f])
    && (forall b: nat :: b < |S| && b !in U ==> c1.argused[b] == c0.argused[b])
    && (forall f: nat :: f < |c1.missing| ==> c1.missing[f] == (c1.actual[f] == MissingArg))
  }

  lemma {:induction false} ListedBelow(s: iset<nat>, n: nat)
    ensures forall k :: 0 <= k < |Listed(s, n)| ==> Listed(s, n)[k] < n
    ensures Ascending(Listed(s, n))
  {
    if n > 0 { ListedBelow(s, n - 1); }
  }

  lemma {:induction false} ListedAt(s: iset<nat>, n: nat, k: nat)
    requires k < |Listed(s, n)|
    ensures Listed(s, n)[k] < n && Listed(s, n)[k] in s
  {
    if k < |Listed(s, n - 1)| { ListedAt(s, n - 1, k); }
  }

  lemma {:induction false} ListedAre(s: iset<nat>, n: nat)
    ensures forall x: nat :: x in Listed(s, n) <==> x < n && x in s
    ensures Ascending(Listed(s, n))
  {
    ListedBelow(s, n);
    if n > 0 { ListedAre(s, n - 1); }
  }

  lemma {:induction false} ListedPrefix(s: iset<nat>, m: nat, n: nat)
    requires m <= n
    ensures Listed(s, m) <= Listed(s, n)
  {
    if m < n { ListedPrefix(s, m, n - 1); }
  }

  /** A formal is open exactly when its cell is empty; the untagged arguments are unused. */
  ghost predicate ThirdPassReady(opens: iset<nat>, plain: iset<nat>, S: seq<Arg>, c: Cells) {
    && |c.actual| == |c.missing| == |c.fargused| && |c.argused| == |S|
    && (forall f: nat :: f < |c.actual| ==> (f in opens <==> c.actual[f] == MissingArg))
    && (forall f: nat :: f < |c.actual| ==> c.missing[f] == (c.actual[f] == MissingArg))
    && (forall b: nat :: b < |S| ==> (b in plain <==> S[b].tag.None?) && (b in plain ==> c.argused[b] == 0))
  }

  /** The next formal and argument are untouched, and the cells tell whether they join the lists. */
  lemma StillFresh(opens: iset<nat>, plain: iset<nat>, S: seq<Arg>, n: nat, b: nat, c0: Cells, c: Cells)
    requires ThirdPassReady(opens, plain, S, c0)
    requires b < |S| && n <= |c.actual| && HandedOut(S, Listed(opens, n), Listed(plain, b), c0, c)
    ensures n < |c.actual| ==> (n in opens <==> c.actual[n] == MissingArg)
    ensures (b in plain <==> S[b].tag.None?) && (b in plain ==> c.argused[b] == 0)
    ensures n !in opens ==> Listed(opens, n + 1) == Listed(opens, n)
    ensures b !in plain ==> Listed(plain, b + 1) == Listed(plain, b)
  {
    ListedAre(opens, n);
    ListedAre(plain, b);
  }

  lemma HandOneMore(opens: iset<nat>, plain: iset<nat>, S: seq<Arg>, c0: Cells, c: Cells, f: nat, b: nat)
    requires b < |S| && f < |c.actual| && HandedOut(S, Listed(opens, f), Listed(plain, b), c0, c)
    requires f in opens && b in plain && c.actual[f] == MissingArg
    ensures HandedOut(S, Listed(opens, f + 1), Listed(plain, b + 1), c0, Take(c, S, f, b, 1).(fargused := c.fargused))
  {
    ListedAre(opens, f);
    ListedAre(plain, b);
    HandOver(S, Listed(opens, f), Listed(plain, b), c0, c, f, b);
  }

  lemma HandOver(S: seq<Arg>, O: seq<nat>, U: seq<nat>, c0: Cells, c: Cells, f: nat, b: nat)
    requires f < |c.actual| && b < |S| && f !in O && b !in U && c.actual[f] == MissingArg
    requires HandedOut(S, O, U, c0, c)
    ensures HandedOut(S, O + [f], U + [b], c0, Take(c, S, f, b, 1).(fargused := c.fargused))
  {
  }

  /** Where the third pass stops, it has handed out all it can. */
  lemma PassesMeet(opens: iset<nat>, plain: iset<nat>, d: nat, n: nat, b: nat, e: nat)
    requires n <= d && b <= e && (n == d || b == e) && |Listed(opens, n)| == |Listed(plain, b)|
    ensures
      var O, U := Listed(opens, d), Listed(plain, e);
      var k := if |O| < |U| then |O| else |U|;
      Listed(opens, n) == O[..k] && Listed(plain, b) == U[..k]
  {
    ListedPrefix(opens, n, d);
    ListedPrefix(plain, b, e);
  }

  /** The state before the second pass reaches formal n. */
  ghost predicate InSecondPass(S: seq<Arg>, E: Pairs, P: Pairs, n: nat, fm: seq<int>, bm: seq<int>, c: Cells) {
    && |bm| == |S| && Maps(E + RowsBelow(P, n), fm, bm) && Holds(S, fm, c)
    && (forall f: nat :: n <= f < |fm| ==>
          (fm[f] >= 0 <==> HasFormal(E, f)) && c.fargused[f] == if fm[f] < 0 then 0 else 2)
    && (forall b: nat :: b < |S| ==> c.argused[b] == if HasArg(E, b) then 2 else if bm[b] < 0 then 0 else 1)
  }

  /** The state before the first pass reaches formal n. */
  ghost predicate InFirstPass(S: seq<Arg>, E: Pairs, n: nat, fm: seq<int>, bm: seq<int>, c: Cells) {
    && |bm| == |S| && Maps(RowsBelow(E, n), fm, bm) && Holds(S, fm, c)
    && (forall f: nat :: f < |fm| ==> c.fargused[f] == if fm[f] < 0 then 0 else 2)
    && (forall b: nat :: b < |S| ==> c.argused[b] == if bm[b] < 0 then 0 else 2)
  }

  lemma FirstPassStarts(S: seq<Arg>, E: Pairs, fm: seq<int>, bm: seq<int>, c: Cells)
    requires fm == seq(|fm|, _ => -1) && bm == seq(|S|, _ => -1)
    requires c == Cells(seq(|fm|, _ => MissingArg), seq(|fm|, _ => true), seq(|S|, _ => 0), seq(|fm|, _ => 0))
    ensures InFirstPass(S, E, 0, fm, bm, c)
  {
  }

  lemma FirstPassStep(S: seq<Arg>, E: Pairs, f: nat, fm: seq<int>, bm: seq<int>, c: Cells, x: int)
    requires f < |fm| && |bm| == |S| && -1 <= x < |S| && InFirstPass(S, E, f, fm, bm, c)
    requires forall b: nat :: (f, b) in E <==> b == x
    requires x >= 0 ==> bm[x] < 0
    ensures InFirstPass(S, E, f + 1, Put(fm, f, x), Put(bm, x, f), Take(c, S, f, x, 2))
  {
    RowsBelowStep(E, f, x);
    MapsMeaning(RowsBelow(E, f), fm, bm);
    MapsExtend(RowsBelow(E, f), RowsBelow(E, f + 1), fm, bm, f, x);
  }

  lemma FirstPassEnds(F: seq<string>, S: seq<Arg>, fm: seq<int>, bm: seq<int>, c: Cells)
    requires |fm| == |F| && InFirstPass(S, ExactPairs(F, S), |F|, fm, bm, c)
    ensures InSecondPass(S, ExactPairs(F, S), PartialPairs(F, S), 0, fm, bm, c)
  {
    var E, P := ExactPairs(F, S), PartialPairs(F, S);
    assert RowsBelow(E, |F|) == E == E + RowsBelow(P, 0);
    MapsMeaning(E, fm, bm);
  }

  lemma PartialNone(F: seq<string>, S: seq<Arg>, f: nat)
    requires f == DotsIndex(F) || HasFormal(ExactPairs(F, S), f)
    ensures forall b: nat :: (f, b) !in PartialPairs(F, S)
  {
  }

  lemma DotsUnmarked(F: seq<string>, S: seq<Arg>, f: nat, fm: seq<int>, bm: seq<int>, c: Cells)
    requires f < |fm| == |F| && InSecondPass(S, ExactPairs(F, S), PartialPairs(F, S), f, fm, bm, c)
    ensures f == DotsIndex(F) ==> c.fargused[f] == 0
  {
  }

  lemma SecondPassStep(F: seq<string>, S: seq<Arg>, E: Pairs, P: Pairs, f: nat, fm: seq<int>, bm: seq<int>, c: Cells,
                       x: int)
    requires E == ExactPairs(F, S) && P == PartialPairs(F, S)
    requires f < |fm| == |F| && |bm| == |S| && -1 <= x < |S| && InSecondPass(S, E, P, f, fm, bm, c)
    requires c.fargused[f] == 0 && f != DotsIndex(F) ==> forall b: nat :: (f, b) in P <==> b == x
    requires x >= 0 ==> c.fargused[f] == 0 && f != DotsIndex(F) && bm[x] < 0 && !HasArg(E, x)
    ensures InSecondPass(S, E, P, f + 1, Put(fm, f, x), Put(bm, x, f), Take(c, S, f, x, 1))
  {
    assert c.fargused[f] == 0 <==> !HasFormal(E, f);
    if f == DotsIndex(F) || HasFormal(E, f) {
      PartialNone(F, S, f);
    }
    SecondPassExtend(S, E, P, f, fm, bm, c, x);
  }

  lemma SecondPassExtend(S: seq<Arg>, E: Pairs, P: Pairs, f: nat, fm: seq<int>, bm: seq<int>, c: Cells, x: int)
    requires f < |fm| && |bm| == |S| && -1 <= x < |S| && InSecondPass(S, E, P, f, fm, bm, c)
    requires forall b: nat :: (f, b) in P <==> b == x
    requires x >= 0 ==> fm[f] < 0 && bm[x] < 0 && !HasArg(E, x)
    ensures InSecondPass(S, E, P, f + 1, Put(fm, f, x), Put(bm, x, f), Take(c, S, f, x, 1))
  {
    RowsBelowStep(P, f, x);
    assert x >= 0 ==> E + RowsBelow(P, f + 1) == E + RowsBelow(P, f) + {(f, x as nat)};
    MapsExtend(E + RowsBelow(P, f), E + RowsBelow(P, f + 1), fm, bm, f, x);
  }

  /** R's `pmatch`: equality when an exact match is demanded, else the tag is a first part. */
  predicate PMatch(formal: string, tag: string, exact: bool) {
    if exact then tag == formal else tag <= formal
  }

  /** The arguments among the first n whose mark is still zero. */
  function Unused(S: seq<Arg>, argused: seq<int>, n: nat): seq<Arg>
    requires n <= |S| == |argused|
  {
    if n == 0 then [] else Unused(S, argused, n - 1) + if argused[n - 1] == 0 then [S[n - 1]] else []
  }

  /** After the tag passes a formal is open exactly when its cell is empty. */
  lemma AfterTagPasses(F: seq<string>, S: seq<Arg>, fm: seq<int>, bm: seq<int>, c: Cells)
    requires |fm| == |F| && InSecondPass(S, ExactPairs(F, S), PartialPairs(F, S), |F|, fm, bm, c)
    ensures
      var T := TagPairs(F, S);
      && OneToOne(T)
      && ThirdPassReady(Opens(T, S, Kernel), Untagged(S), S, c)
      && (forall b: nat :: b < |S| ==> (c.argused[b] == 0 <==> !HasArg(T, b)))
      && (forall f: nat, b: nat :: (f, b) in T ==> f < |F| && b < |S| && c.actual[f] == S[b].value)
      && (forall f: nat :: f < |F| && !HasFormal(T, f) ==> c.actual[f] == MissingArg)
  {
    var T, P := TagPairs(F, S), PartialPairs(F, S);
    assert RowsBelow(P, |F|) == P;
    MapsMeaning(T, fm, bm);
    forall b: nat, f: nat | (f, b) in T ensures S[b].tag.Some? && fm[f] == b {}
  }

  /** Every cell holds what is bound to it; the cell of `...` is still empty. */
  ghost predicate Filled(F: seq<string>, S: seq<Arg>, actuals: seq<Value>, missing: seq<bool>) {
    var T, d := TagPairs(F, S), DotsIndex(F);
    && |actuals| == |missing| == |F|
    && CellsHold(T, d, S, Kernel, actuals)
    && (d < |F| ==> actuals[d] == MissingArg)
    && (forall f: nat :: f < |F| ==> missing[f] == (actuals[f] == MissingArg))
  }

  lemma DotsFilled(F: seq<string>, S: seq<Arg>, actuals: seq<Value>, missing: seq<bool>)
    requires Filled(F, S, actuals, missing)
    ensures DotsIndex(F) == |F| ==> IsMatching(F, S, Kernel, actuals, missing)
    ensures DotsIndex(F) < |F| ==>
      IsMatching(F, S, Kernel, actuals, missing[DotsIndex(F) := false]) || Rest(F, S, Kernel) != []
    ensures DotsIndex(F) < |F| && Rest(F, S, Kernel) != [] ==>
      IsMatching(F, S, Kernel, actuals[DotsIndex(F) := Dots(Rest(F, S, Kernel))], missing[DotsIndex(F) := false])
  {
    var T, d, rest := TagPairs(F, S), DotsIndex(F), Rest(F, S, Kernel);
    if d < |F| {
      var filled := actuals[d := Dots(rest)];
      forall f: nat | f < |F| && f != d ensures CellHolds(T, d, S, Kernel, f, filled[f]) {
        assert filled[f] == actuals[f];
      }
    }
  }

  /** The cells and marks after the third pass, read back as the rules. */
  lemma AfterThirdPass(F: seq<string>, S: seq<Arg>, fm: seq<int>, bm: seq<int>, c0: Cells, c: Cells)
    requires |fm| == |F| && InSecondPass(S, ExactPairs(F, S), PartialPairs(F, S), |F|, fm, bm, c0)
    requires
      var T, d := TagPairs(F, S), DotsIndex(F);
      HandedOut(S, PositionalFormals(T, d, S, Kernel), PositionalArgs(T, d, S, Kernel), c0, c)
    ensures Filled(F, S, c.actual, c.missing)
    ensures Unused(S, c.argused, |S|) == Rest(F, S, Kernel)
  {
    AfterTagPasses(F, S, fm, bm, c0);
    var T, d := TagPairs(F, S), DotsIndex(F);
    var O, U := PositionalFormals(T, d, S, Kernel), PositionalArgs(T, d, S, Kernel);
    forall f: nat | f < |F| && f != d ensures CellHolds(T, d, S, Kernel, f, c.actual[f]) {
      CellFilled(T, d, S, c0, c, f);
    }
    DotsUntouched(F, S, c0, c);
    UnusedIsLeftover(T, U, S, c.argused, |S|);
  }

  lemma DotsUntouched(F: seq<string>, S: seq<Arg>, c0: Cells, c: Cells)
    requires
      var T, d := TagPairs(F, S), DotsIndex(F);
      HandedOut(S, PositionalFormals(T, d, S, Kernel), PositionalArgs(T, d, S, Kernel), c0, c)
    ensures DotsIndex(F) < |c.actual| ==> c.actual[DotsIndex(F)] == c0.actual[DotsIndex(F)]
    ensures !HasFormal(TagPairs(F, S), DotsIndex(F))
  {
    var T, d := TagPairs(F, S), DotsIndex(F);
    ListedAre(Opens(T, S, Kernel), d);
    assert d !in Listed(Opens(T, S, Kernel), d);
    assert d !in PositionalFormals(T, d, S, Kernel);
  }

  lemma CellFilled(T: Pairs, d: nat, S: seq<Arg>, c0: Cells, c: Cells, f: nat)
    requires f < |c0.actual| && OneToOne(T)
    requires HandedOut(S, PositionalFormals(T, d, S, Kernel), PositionalArgs(T, d, S, Kernel), c0, c)
    requires forall b: nat :: (f, b) in T ==> b < |S| && c0.actual[f] == S[b].value
    requires !HasFormal(T, f) ==> c0.actual[f] == MissingArg
    ensures CellHolds(T, d, S, Kernel, f, c.actual[f])
  {
    var O, U := PositionalFormals(T, d, S, Kernel), PositionalArgs(T, d, S, Kernel);
    ListedAre(Opens(T, S, Kernel), d);
    ListedAre(Untagged(S), |S|);
  }

  lemma {:induction false} UnusedIsLeftover(T: Pairs, U: seq<nat>, S: seq<Arg>, argused: seq<int>, n: nat)
    requires n <= |S| == |argused|
    requires forall b: nat :: b < |S| ==> (argused[b] == 0 <==> !HasArg(T, b) && b !in U)
    ensures Unused(S, argused, n) == Leftover(T, U, S, n)
  {
    if n > 0 { UnusedIsLeftover(T, U, S, argused, n - 1); }
  }
}
