/** The a..z rank generator of apps/web/src/lib/lexorank.ts. */
module ClientRanks {
  import opened Wrappers
  import opened Ranks

  const MIN_CHAR := 97   // 'a'
  const MAX_CHAR := 122  // 'z'
  const MID_CHAR := 109  // 'm'
  const LAST_INDEX := 40 // the index after which the inner loop gives up

  /** The character at `i`, or `fallback` past the end. */
  function Code(s: Rank, i: nat, fallback: nat): nat {
    if i < |s| then s[i] else fallback
  }

  function OrEmpty(r: Option<Rank>): Rank {
    if r.Some? then r.value else []
  }

  // ------------------------------------------------------------ specification

  /** What the inner loop appends from index `i` on. */
  function ExtendFrom(a: Rank, i: nat): Rank
    decreases LAST_INDEX + 1 - i
  {
    var c := Code(a, i, MIN_CHAR);
    if c < MAX_CHAR then [(c + MAX_CHAR + 1) / 2]
    else if i + 1 > LAST_INDEX then [c] + [MID_CHAR]
    else [c] + ExtendFrom(a, i + 1)
  }

  /** What the outer loop appends from index `i` on. */
  function MidpointFrom(a: Rank, b: Rank, i: nat): Rank
    decreases |a| + |b| - i
  {
    var ac: int, bc: int := Code(a, i, MIN_CHAR), Code(b, i, MAX_CHAR + 1);
    if ac == bc then [ac] + MidpointFrom(a, b, i + 1)
    else if bc - ac > 1 then [(ac + bc) / 2]
    else [ac] + ExtendFrom(a, i + 1)
  }

  function Midpoint(prev: Option<Rank>, next: Option<Rank>): Rank {
    MidpointFrom(OrEmpty(prev), OrEmpty(next), 0)
  }

  // ------------------------------------------------------------------ program

  /** What one turn of the outer loop does to what is still to be appended. */
  lemma OuterTurn(a: Rank, b: Rank, i: nat, out: Rank)
    ensures var ac: int, bc: int := Code(a, i, MIN_CHAR), Code(b, i, MAX_CHAR + 1);
            out + MidpointFrom(a, b, i) ==
              if ac == bc then (out + [ac]) + MidpointFrom(a, b, i + 1)
              else if bc - ac > 1 then out + [(ac + bc) / 2]
              else (out + [ac]) + ExtendFrom(a, i + 1)
  {
  }

  lemma InnerTurn(a: Rank, i: nat, out: Rank)
    ensures var c := Code(a, i, MIN_CHAR);
            out + ExtendFrom(a, i) ==
              if c < MAX_CHAR then out + [(c + MAX_CHAR + 1) / 2]
              else if i + 1 > LAST_INDEX then (out + [c]) + [MID_CHAR]
              else (out + [c]) + ExtendFrom(a, i + 1)
  {
  }

  /** Both loops terminate on every input. */
  method ComputeMidpoint(prev: Option<Rank>, next: Option<Rank>) returns (r: Rank)
    ensures r == Midpoint(prev, next)
  {
    var a := OrEmpty(prev);
    var b := OrEmpty(next);
    var result: Rank := [];
    var i := 0;
    while true
      invariant Midpoint(prev, next) == result + MidpointFrom(a, b, i)
      decreases |a| + |b| - i
    {
      OuterTurn(a, b, i, result);
      var ac: int, bc: int := Code(a, i, MIN_CHAR), Code(b, i, MAX_CHAR + 1);
      if ac == bc {
        result := result + [ac];
        i := i + 1;
        continue;
      }
      if bc - ac > 1 {
        return result + [(ac + bc) / 2];
      }
      result := result + [ac];
      i := i + 1;
      while true
        invariant Midpoint(prev, next) == result + ExtendFrom(a, i)
        decreases LAST_INDEX + 1 - i
      {
        InnerTurn(a, i, result);
        var nextA := Code(a, i, MIN_CHAR);
        if nextA < MAX_CHAR {
          return result + [(nextA + MAX_CHAR + 1) / 2];
        }
        result := result + [nextA];
        i := i + 1;
        if i > LAST_INDEX {
          return result + [MID_CHAR];
        }
      }
    }
  }

  // --------------------------------------------------------------- properties

  predicate Lowercase(r: Rank) {
    forall i :: 0 <= i < |r| ==> MIN_CHAR <= r[i] <= MAX_CHAR
  }

  predicate EndsAboveMin(r: Rank) {
    r != [] && r[|r| - 1] != MIN_CHAR
  }

  /** A usable stored position: a..z, non-empty, not ending in 'a'. */
  predicate Proper(r: Rank) {
    Lowercase(r) && EndsAboveMin(r)
  }

  function From(s: Rank, i: nat): Rank {
    if i <= |s| then s[i..] else []
  }

  /** No character lies above 'z'; ranks of the server qualify too. */
  predicate UpToMax(r: Rank) {
    forall i :: 0 <= i < |r| ==> r[i] <= MAX_CHAR
  }

  /** `i` is the first index at which the padded bounds differ. */
  predicate FirstDifference(a: Rank, b: Rank, i: nat) {
    && Code(a, i, MIN_CHAR) != Code(b, i, MAX_CHAR + 1)
    && forall k: nat :: k < i ==> Code(a, k, MIN_CHAR) == Code(b, k, MAX_CHAR + 1)
  }

  /** The inner loop, entered at `i`, gives up short of `a`: 'z's up to the last index it looks at, 'm' or more behind. */
  predicate GivesUp(a: Rank, i: nat) {
    var j := if i < LAST_INDEX then LAST_INDEX else i;
    j + 1 < |a| && a[j + 1] >= MID_CHAR && forall k :: i <= k <= j ==> a[k] == MAX_CHAR
  }

  /** `i` is the first padded difference, no character fits between, and the inner loop gives up. */
  predicate StuckAt(a: Rank, b: Rank, i: nat) {
    var ac: int, bc: int := Code(a, i, MIN_CHAR), Code(b, i, MAX_CHAR + 1);
    FirstDifference(a, b, i) && bc - ac <= 1 && GivesUp(a, i + 1)
  }

  ghost predicate IsStuck(prev: Option<Rank>, next: Option<Rank>) {
    exists i: nat :: StuckAt(OrEmpty(prev), OrEmpty(next), i)
  }

  /** `b` is `a` followed by 'a's up to `i`, where `b` ends or goes on below 'a'. */
  predicate OverrunAt(a: Rank, b: Rank, i: nat) {
    && a <= b && |a| <= i <= |b|
    && (forall k :: |a| <= k < i ==> b[k] == MIN_CHAR)
    && (i == |b| || b[i] < MIN_CHAR)
  }

  /** `next` is `prev` followed by 'a's and then by nothing or by a character below 'a'. */
  ghost predicate Overruns(prev: Option<Rank>, next: Option<Rank>) {
    next.Some? && exists i: nat :: OverrunAt(OrEmpty(prev), next.value, i)
  }

  lemma {:induction false} PrefixLt(p: Rank, a: Rank, b: Rank)
    ensures Lt(p + a, p + b) <==> Lt(a, b)
  {
    if p == [] {
      assert p + a == a && p + b == b;
    } else {
      PrefixLt(p[1..], a, b);
      assert (p + a)[1..] == p[1..] + a && (p + b)[1..] == p[1..] + b;
    }
  }

  lemma FromSplits(s: Rank, i: nat)
    requires i < |s|
    ensures From(s, i) == [s[i]] + From(s, i + 1)
  {
  }

  lemma GivesUpNext(a: Rank, i: nat)
    requires i < LAST_INDEX
    ensures GivesUp(a, i) <==> i < |a| && a[i] == MAX_CHAR && GivesUp(a, i + 1)
  {
  }

  lemma BelowOne(t: Rank, c: nat)
    ensures Lt(t, [c]) <==> t == [] || t[0] < c
  {
  }

  lemma GivesUpAtLast(a: Rank, i: nat)
    requires i >= LAST_INDEX && i < |a| && a[i] == MAX_CHAR
    ensures Lt(From(a, i), [MAX_CHAR] + [MID_CHAR]) <==> !GivesUp(a, i)
  {
    FromSplits(a, i);
    PrefixLt([MAX_CHAR], From(a, i + 1), [MID_CHAR]);
    BelowOne(From(a, i + 1), MID_CHAR);
  }

  /** What the inner loop appends exceeds the rest of `a` exactly when the loop does not give up. */
  lemma {:induction false} ExtendSpec(a: Rank, i: nat)
    requires UpToMax(a)
    ensures Lt(From(a, i), ExtendFrom(a, i)) <==> !GivesUp(a, i)
    decreases LAST_INDEX + 1 - i
  {
    if i < |a| {
      FromSplits(a, i);
      if a[i] == MAX_CHAR && i < LAST_INDEX {
        ExtendSpec(a, i + 1);
        GivesUpNext(a, i);
        PrefixLt([MAX_CHAR], From(a, i + 1), ExtendFrom(a, i + 1));
      } else if a[i] == MAX_CHAR {
        GivesUpAtLast(a, i);
      }
    }
  }

  lemma {:induction false} ExtendIsProper(a: Rank, i: nat)
    requires Lowercase(a)
    ensures Proper(ExtendFrom(a, i))
    decreases LAST_INDEX + 1 - i
  {
    if Code(a, i, MIN_CHAR) == MAX_CHAR && i < LAST_INDEX {
      ExtendIsProper(a, i + 1);
    }
  }

  /** The first `i` characters of the padded lower bound. */
  function Padded(a: Rank, i: nat): (p: Rank)
    ensures |p| == i
  {
    seq(i, k requires 0 <= k < i => Code(a, k, MIN_CHAR))
  }

  lemma EqualBefore(a: Rank, b: Rank, i: nat, k: nat)
    requires FirstDifference(a, b, i) && k < i
    ensures Code(a, k, MIN_CHAR) == Code(b, k, MAX_CHAR + 1)
  {
  }

  lemma MidpointCopiesOne(a: Rank, b: Rank, k: nat, t: Rank)
    requires Code(a, k, MIN_CHAR) == Code(b, k, MAX_CHAR + 1) && t == MidpointFrom(a, b, k + 1)
    ensures MidpointFrom(a, b, k) == [Code(a, k, MIN_CHAR)] + t
  {
  }

  lemma PaddedNext(a: Rank, i: nat, k: nat, t: Rank)
    requires k < i
    ensures [Code(a, k, MIN_CHAR)] + (Padded(a, i)[k + 1..] + t) == Padded(a, i)[k..] + t
  {
  }

  /** The common part of the padded bounds is copied. */
  lemma {:induction false} MidpointCopies(a: Rank, b: Rank, i: nat, k: nat, t: Rank)
    requires k <= i && FirstDifference(a, b, i) && t == MidpointFrom(a, b, i)
    ensures MidpointFrom(a, b, k) == Padded(a, i)[k..] + t
    decreases i - k
  {
    if k < i {
      MidpointCopies(a, b, i, k + 1, t);
      EqualBefore(a, b, i, k);
      MidpointCopiesOne(a, b, k, Padded(a, i)[k + 1..] + t);
      PaddedNext(a, i, k, t);
    } else {
      assert Padded(a, i)[k..] == [];
    }
  }

  lemma {:induction false} SomewhereDifferent(a: Rank, b: Rank, k: nat) returns (i: nat)
    requires UpToMax(a) && k <= |b|
    requires forall n: nat :: n < k ==> Code(a, n, MIN_CHAR) == Code(b, n, MAX_CHAR + 1)
    ensures FirstDifference(a, b, i) && i <= |b|
    decreases |b| - k
  {
    if k < |b| && Code(a, k, MIN_CHAR) == b[k] {
      i := SomewhereDifferent(a, b, k + 1);
    } else {
      i := k;
    }
  }

  /** Both bounds start with the copied part, the lower one as far as it goes. */
  lemma SplitAtDifference(a: Rank, b: Rank, i: nat)
    requires FirstDifference(a, b, i) && i <= |b|
    ensures b == Padded(a, i) + b[i..]
    ensures i <= |a| ==> a == Padded(a, i) + a[i..]
    ensures |a| < i ==> a <= Padded(a, i)
  {
    assert forall k: nat :: k < i ==> b[k] == Code(a, k, MIN_CHAR);
  }

  lemma AbovePrevIff(a: Rank, b: Rank, i: nat)
    requires UpToMax(a) && FirstDifference(a, b, i) && i <= |b|
    ensures Lt(a, Padded(a, i) + MidpointFrom(a, b, i)) <==> !StuckAt(a, b, i)
  {
    var p, t := Padded(a, i), MidpointFrom(a, b, i);
    SplitAtDifference(a, b, i);
    ExtendSpec(a, i + 1);
    if i < |a| {
      PrefixLt(p, a[i..], t);
      FromSplits(a, i);
      PrefixLt([a[i]], From(a, i + 1), ExtendFrom(a, i + 1));
    } else {
      assert p + t == a + (p + t)[|a|..];
      ExtensionIsGreater(a, (p + t)[|a|..]);
    }
  }

  lemma BelowNextIff(a: Rank, b: Rank, i: nat)
    requires UpToMax(a) && Lt(a, b) && FirstDifference(a, b, i) && i <= |b|
    ensures var r := Padded(a, i) + MidpointFrom(a, b, i); if i >= |a| && OverrunAt(a, b, i) then Lt(b, r) else Lt(r, b)
  {
    var p, t := Padded(a, i), MidpointFrom(a, b, i);
    SplitAtDifference(a, b, i);
    PrefixLt(p, t, b[i..]);
    PrefixLt(p, b[i..], t);
    if i < |a| {
      PrefixLt(p, a[i..], b[i..]);
    }
  }

  /** The place of an overrun is the first padded difference. */
  lemma OverrunIsAtDifference(a: Rank, b: Rank, i: nat, n: nat)
    requires FirstDifference(a, b, i) && i <= |b| && OverrunAt(a, b, n)
    ensures n == i
  {
    assert forall k :: 0 <= k < |a| ==> a[k] == b[k];
    if n < i {
      EqualBefore(a, b, i, n);
    }
  }

  lemma DifferenceIsUnique(a: Rank, b: Rank, i: nat, n: nat)
    requires FirstDifference(a, b, i) && FirstDifference(a, b, n)
    ensures n == i
  {
  }

  /**
   * For every lower bound up to 'z', ranks of the server included: the result is above it
   * exactly when the give-up branch does not cut it short, and, the bounds being in
   * order, below the upper bound exactly when that one does not just add 'a's before it
   * ends or goes on below 'a'.
   */
  lemma MidpointExact(prev: Option<Rank>, next: Option<Rank>)
    requires UpToMax(OrEmpty(prev))
    requires next.Some? ==> Lt(OrEmpty(prev), next.value)
    ensures var r := Midpoint(prev, next);
            && (Lt(OrEmpty(prev), r) <==> !IsStuck(prev, next))
            && (next.Some? ==> (Lt(r, next.value) <==> !Overruns(prev, next)) && (Lt(next.value, r) <==> Overruns(prev, next)))
  {
    var a, b := OrEmpty(prev), OrEmpty(next);
    var i := SomewhereDifferent(a, b, 0);
    MidpointCopies(a, b, i, 0, MidpointFrom(a, b, i));
    assert Padded(a, i)[0..] == Padded(a, i);
    AbovePrevIff(a, b, i);
    if n: nat :| StuckAt(a, b, n) {
      DifferenceIsUnique(a, b, i, n);
    }
    if next.Some? {
      BelowNextIff(a, b, i);
      if n: nat :| OverrunAt(a, b, n) {
        OverrunIsAtDifference(a, b, i, n);
      }
      var r := Midpoint(prev, next);
      NotLtIsGe(r, b);
      NotLtIsGe(b, r);
      LtIrreflexive(b);
    }
  }

  /** From lowercase bounds the result is a usable position. */
  lemma MidpointIsProper(prev: Option<Rank>, next: Option<Rank>)
    requires Lowercase(OrEmpty(prev)) && Lowercase(OrEmpty(next))
    ensures Proper(Midpoint(prev, next))
  {
    var a, b := OrEmpty(prev), OrEmpty(next);
    var i := SomewhereDifferent(a, b, 0);
    MidpointCopies(a, b, i, 0, MidpointFrom(a, b, i));
    assert Padded(a, i)[0..] == Padded(a, i);
    TailIsProper(a, b, i);
    ProperConcat(Padded(a, i), MidpointFrom(a, b, i));
  }

  lemma TailIsProper(a: Rank, b: Rank, i: nat)
    requires Lowercase(a) && Lowercase(b) && Code(a, i, MIN_CHAR) != Code(b, i, MAX_CHAR + 1)
    ensures Proper(MidpointFrom(a, b, i))
  {
    ExtendIsProper(a, i + 1);
    ProperConcat([Code(a, i, MIN_CHAR)], ExtendFrom(a, i + 1));
  }

  lemma ProperConcat(p: Rank, t: Rank)
    requires Lowercase(p) && Proper(t)
    ensures Proper(p + t)
  {
  }

  lemma OverrunIsImproper(a: Rank, b: Rank, n: nat)
    requires OverrunAt(a, b, n) && a != b
    ensures !Proper(b)
  {
    if n == |b| {
      assert |a| < |b| by {
        assert |a| == |b| ==> a == b;
      }
      assert b[|b| - 1] == MIN_CHAR;
    }
  }

  lemma ProperIsNotOverrun(prev: Option<Rank>, next: Rank)
    requires Proper(next) && Lt(OrEmpty(prev), next)
    ensures !Overruns(prev, Some(next))
  {
    LtIrreflexive(next);
    if n: nat :| OverrunAt(OrEmpty(prev), next, n) {
      OverrunIsImproper(OrEmpty(prev), next, n);
    }
  }

  /** With a lower bound of at most 41 characters the result is strictly between the bounds. */
  lemma MidpointTotallyCorrect(prev: Option<Rank>, next: Option<Rank>)
    requires Lowercase(OrEmpty(prev)) && |OrEmpty(prev)| <= LAST_INDEX + 1
    requires next.Some? ==> Proper(next.value) && Lt(OrEmpty(prev), next.value)
    ensures var r := Midpoint(prev, next);
            Proper(r) && Lt(OrEmpty(prev), r) && (next.Some? ==> Lt(r, next.value))
  {
    MidpointExact(prev, next);
    MidpointIsProper(prev, next);
    if next.Some? {
      ProperIsNotOverrun(prev, next.value);
    }
  }

  /** A rank of 'z's only. */
  predicate AllMax(r: Rank) {
    forall i :: 0 <= i < |r| ==> r[i] == MAX_CHAR
  }

  /** The bound is tight: every longer rank of 'z's gets a successor that is not above it. */
  lemma FortyOneIsTight(prev: Rank)
    requires AllMax(prev) && |prev| > LAST_INDEX + 1
    ensures Proper(prev) && !Lt(prev, Midpoint(Some(prev), None))
  {
    assert StuckAt(prev, [], 0);
    MidpointExact(Some(prev), None);
  }

  /** A rank that starts with a digit, as ranks of the server can, is overrun by a head insertion. */
  lemma DigitIsOverrun(next: Rank)
    requires next != [] && next[0] < MIN_CHAR
    ensures Lt(next, Midpoint(None, Some(next)))
  {
    assert OverrunAt([], next, 0);
    MidpointExact(None, Some(next));
  }

  /** A `next` that only adds 'a's to `prev` is overrun. */
  lemma EndingInMinIsOverrun(prev: Rank, next: Rank)
    requires UpToMax(prev) && prev < next && forall i :: |prev| <= i < |next| ==> next[i] == MIN_CHAR
    ensures Lt(next, Midpoint(Some(prev), Some(next)))
  {
    assert next == prev + next[|prev|..];
    ExtensionIsGreater(prev, next[|prev|..]);
    assert OverrunAt(prev, next, |next|);
    MidpointExact(Some(prev), Some(next));
  }
}
