/** The very strings both generators return: apps/api/app/lexorank.py and apps/web/src/lib/lexorank.ts. */
module RankValues {
  import opened Wrappers
  import opened Ranks
  import S = ServerRanks
  import P = ShortestRanks
  import C = ClientRanks

  // -------------------------------------------------------------------- the server

  /** Behind leading '0's the first digit is halved, and the rest is dropped. */
  lemma {:induction false} BeforeValue(zeros: nat, c: nat, rest: Rank)
    requires S.InAlphabet(c) && c != 48
    ensures S.Before(S.Zeros(zeros) + [c] + rest) == Ok(S.Zeros(zeros) + [S.Alphabet(S.CharValue(c) / 2)])
  {
    var right := S.Zeros(zeros) + [c] + rest;
    if zeros > 0 {
      BeforeValue(zeros - 1, c, rest);
      assert right[1..] == S.Zeros(zeros - 1) + [c] + rest;
      assert [S.MIN_CHAR] + (S.Zeros(zeros - 1) + [S.Alphabet(S.CharValue(c) / 2)]) == S.Zeros(zeros) + [S.Alphabet(S.CharValue(c) / 2)];
    } else {
      assert right == [c] + rest;
      assert S.Zeros(0) + [S.Alphabet(S.CharValue(c) / 2)] == [S.Alphabet(S.CharValue(c) / 2)];
    }
  }

  lemma {:induction false} BeforeZeros(zeros: nat)
    ensures S.Before(S.Zeros(zeros)) == Ok(S.Zeros(zeros) + [105])
  {
    if zeros > 0 {
      BeforeZeros(zeros - 1);
      assert S.Zeros(zeros)[1..] == S.Zeros(zeros - 1);
      assert [S.MIN_CHAR] + (S.Zeros(zeros - 1) + [105]) == S.Zeros(zeros) + [105];
    } else {
      assert S.Zeros(0) == [] && S.Zeros(0) + [105] == [105];
    }
  }

  /**
   * At the first padded difference the digit in the middle is taken, if there is one;
   * otherwise the padded left bound gets an "i".
   */
  lemma BetweenValue(left: Rank, right: Rank, p: nat)
    requires S.Valid(left) && S.Valid(right) && Lt(left, right) && P.DifferAt(left, right, p) && p < |right|
    ensures var n := S.Max(|left|, |right|);
            S.Between(left, right) ==
              if P.Gap(left, right, p) > 1
              then Ok(S.Pad(left, n)[..p] + [S.Alphabet((S.CharValue(P.Digit(left, p)) + S.CharValue(P.Digit(right, p))) / 2)])
              else Ok(S.Pad(left, n) + [105])
  {
    var n := S.Max(|left|, |right|);
    P.OrderAtDifference(left, right, p);
    PadsAgree(left, right, n, p);
    BetweenPadded(left, right, S.Pad(left, n), S.Pad(right, n), p, P.Digit(left, p), P.Digit(right, p));
  }

  lemma BetweenPadded(left: Rank, right: Rank, a: Rank, b: Rank, p: nat, c: nat, d: nat)
    requires S.Valid(a) && S.Valid(b) && |a| == |b| && p < |a| && a[..p] == b[..p] && c == a[p] < b[p] == d
    requires S.Between(left, right) == S.Scan(a, b)
    ensures S.InAlphabet(c) && S.InAlphabet(d)
    ensures S.Between(left, right) ==
              if S.CharValue(d) - S.CharValue(c) > 1
              then Ok(a[..p] + [S.Alphabet((S.CharValue(c) + S.CharValue(d)) / 2)])
              else Ok(a + [105])
  {
    ScanHere(a, b, p);
  }

  lemma PadsAgree(left: Rank, right: Rank, n: nat, p: nat)
    requires S.Valid(left) && S.Valid(right) && |left| <= n && |right| <= n && p < n && P.DifferAt(left, right, p)
    ensures |S.Pad(left, n)| == n == |S.Pad(right, n)| && S.Pad(left, n)[..p] == S.Pad(right, n)[..p]
    ensures S.Pad(left, n)[p] == P.Digit(left, p) && S.Pad(right, n)[p] == P.Digit(right, p)
    ensures S.Valid(S.Pad(left, n)) && S.Valid(S.Pad(right, n))
  {
    P.PadIsDigits(left, n);
    P.PadIsDigits(right, n);
  }

  lemma ScanHere(a: Rank, b: Rank, p: nat)
    requires S.Valid(a) && S.Valid(b) && |a| == |b| && p < |a| && a[..p] == b[..p] && a[p] < b[p]
    ensures S.Scan(a, b) ==
              if S.CharValue(b[p]) - S.CharValue(a[p]) > 1
              then Ok(a[..p] + [S.Alphabet((S.CharValue(a[p]) + S.CharValue(b[p])) / 2)])
              else Ok(a + [105])
  {
    P.ScanCopies(a, b, p);
    S.ScanAt(a, b, p);
    AfterTail(a, p);
    assert a[p] != b[p] && S.InAlphabet(a[p]) && S.InAlphabet(b[p]);
  }

  lemma AfterTail(a: Rank, p: nat)
    requires p < |a|
    ensures a[..p] + ([a[p]] + S.After(a[p + 1..])) == a + [105]
  {
  }

  /** The scan stops with an error at the first character outside the alphabet it looks at, and only at the end for equal strings. */
  lemma {:induction false} ScanErrors(a: Rank, b: Rank, p: nat)
    requires |a| == |b| && p <= |a| && a[..p] == b[..p] && S.Valid(a[..p])
    ensures p == |a| ==> S.Scan(a, b) == Err(S.IdenticalAfterPadding)
    ensures p < |a| && !(S.InAlphabet(a[p]) && S.InAlphabet(b[p])) ==> S.Scan(a, b) == Err(S.OutOfAlphabet)
    decreases p
  {
    if p > 0 {
      assert a[0] == a[..p][0] == b[..p][0] == b[0];
      assert a[1..][..p - 1] == a[..p][1..] == b[..p][1..] == b[1..][..p - 1];
      ScanErrors(a[1..], b[1..], p - 1);
    }
  }

  /** Why two bounds raise: they are out of order, or the padded strings do. */
  lemma BetweenErrors(left: Rank, right: Rank)
    ensures !Lt(left, right) ==> S.Between(left, right) == Err(S.OutOfOrder)
    ensures Lt(left, right) && S.Valid(left) && S.Valid(right) ==>
              (S.Between(left, right).Err? <==> S.ZeroExtension(left, right)) &&
              (S.Between(left, right).Err? ==> S.Between(left, right).error == S.IdenticalAfterPadding)
  {
    if Lt(left, right) && S.Valid(left) && S.Valid(right) {
      S.BetweenExact(left, right);
      if S.ZeroExtension(left, right) {
        ExtensionPads(left, right);
        var b := S.Pad(right, |right|);
        assert b[..|b|] == b;
        ScanErrors(b, b, |b|);
      }
    }
  }

  lemma ExtensionPads(left: Rank, right: Rank)
    requires S.ZeroExtension(left, right)
    ensures |left| <= |right| && S.Pad(left, |right|) == right == S.Pad(right, |right|)
  {
  }

  /** Before a bound: the first character that is no '0' decides, and it raises if that is outside the alphabet. */
  lemma {:induction false} BeforeErrors(zeros: nat, c: nat, rest: Rank)
    requires !S.InAlphabet(c)
    ensures S.Before(S.Zeros(zeros) + [c] + rest) == Err(S.OutOfAlphabet)
  {
    var right := S.Zeros(zeros) + [c] + rest;
    if zeros > 0 {
      BeforeErrors(zeros - 1, c, rest);
      assert right[1..] == S.Zeros(zeros - 1) + [c] + rest;
    } else {
      assert right == [c] + rest;
    }
  }

  // -------------------------------------------------------------------- the client

  /** `k` is where the run of 'z's of `a` ends that starts at `i`. */
  predicate RunEnds(a: Rank, i: nat, k: nat) {
    i <= k && C.Code(a, k, 97) < 122 && forall j :: i <= j < k ==> C.Code(a, j, 97) == 122
  }

  predicate AllZs(a: Rank, i: nat, k: nat) {
    forall j :: i <= j <= k ==> C.Code(a, j, 97) == 122
  }

  /** Within reach, the character that ends the run of 'z's is raised half-way to the end of the alphabet. */
  lemma {:induction false} ExtendValue(a: Rank, i: nat, k: nat)
    requires RunEnds(a, i, k) && (k <= 40 || k == i)
    ensures C.ExtendFrom(a, i) == C.Padded(a, k)[i..] + [(C.Code(a, k, 97) + 123) / 2]
    decreases k - i
  {
    if i < k {
      ExtendValue(a, i + 1, k);
      assert C.Padded(a, k)[i..] == [122] + C.Padded(a, k)[i + 1..];
    } else {
      assert C.Padded(a, k)[i..] == [];
    }
  }

  /** Beyond index 40 it gives up: the 'z's looked at, and an "m". */
  lemma {:induction false} GiveUpValue(a: Rank, i: nat, last: nat)
    requires i <= last && last == (if i < 40 then 40 else i) && AllZs(a, i, last)
    ensures C.ExtendFrom(a, i) == C.Padded(a, last + 1)[i..] + [109]
    decreases last - i
  {
    if i < last {
      GiveUpValue(a, i + 1, last);
      assert C.Padded(a, last + 1)[i..] == [122] + C.Padded(a, last + 1)[i + 1..];
    } else {
      assert C.Padded(a, last + 1)[i..] == [122];
    }
  }

  // The client's string: with `i` the first padded difference, up to there it is the padded
  // lower bound; what follows depends on what is left there.

  /** With a character in between, the one in the middle. */
  lemma ClientBetween(prev: Option<Rank>, next: Option<Rank>, i: nat)
    requires C.FirstDifference(C.OrEmpty(prev), C.OrEmpty(next), i)
    requires C.Code(C.OrEmpty(next), i, 123) as int - C.Code(C.OrEmpty(prev), i, 97) > 1
    ensures var a, b := C.OrEmpty(prev), C.OrEmpty(next);
            C.Midpoint(prev, next) == C.Padded(a, i) + [(C.Code(a, i, 97) + C.Code(b, i, 123)) / 2]
  {
    CopiesUpTo(prev, next, i);
  }

  /** Otherwise the lower bound up to the end of its run of 'z's behind `i`, and the character there raised half-way. */
  lemma ClientAtRunEnd(prev: Option<Rank>, next: Option<Rank>, i: nat, k: nat)
    requires C.FirstDifference(C.OrEmpty(prev), C.OrEmpty(next), i)
    requires C.Code(C.OrEmpty(next), i, 123) as int - C.Code(C.OrEmpty(prev), i, 97) <= 1
    requires RunEnds(C.OrEmpty(prev), i + 1, k) && (k <= 40 || k == i + 1)
    ensures var a := C.OrEmpty(prev); C.Midpoint(prev, next) == C.Padded(a, k) + [(C.Code(a, k, 97) + 123) / 2]
  {
    CopiesUpTo(prev, next, i);
    EndsWithRun(C.OrEmpty(prev), C.OrEmpty(next), i, k);
  }

  /** A run that goes on beyond index 40 is cut off there, and gets an "m". */
  lemma ClientGivesUp(prev: Option<Rank>, next: Option<Rank>, i: nat, k: nat)
    requires C.FirstDifference(C.OrEmpty(prev), C.OrEmpty(next), i)
    requires C.Code(C.OrEmpty(next), i, 123) as int - C.Code(C.OrEmpty(prev), i, 97) <= 1
    requires k == (if i + 1 < 40 then 40 else i + 1) && AllZs(C.OrEmpty(prev), i + 1, k)
    ensures C.Midpoint(prev, next) == C.Padded(C.OrEmpty(prev), k + 1) + [109]
  {
    CopiesUpTo(prev, next, i);
    EndsGivingUp(C.OrEmpty(prev), C.OrEmpty(next), i, k);
  }

  /** One of the three it is: where the run of 'z's does not end within reach, it goes on. */
  lemma {:induction false} RunEndsOrGoesOn(a: Rank, i: nat) returns (k: nat)
    requires C.UpToMax(a)
    ensures (RunEnds(a, i, k) && (k <= 40 || k == i)) || (k == (if i < 40 then 40 else i) && AllZs(a, i, k))
    decreases 40 - i
  {
    if C.Code(a, i, 97) < 122 || i >= 40 {
      k := i;
    } else {
      k := RunEndsOrGoesOn(a, i + 1);
    }
  }

  lemma CopiesUpTo(prev: Option<Rank>, next: Option<Rank>, i: nat)
    requires C.FirstDifference(C.OrEmpty(prev), C.OrEmpty(next), i)
    ensures var a, b := C.OrEmpty(prev), C.OrEmpty(next); C.Midpoint(prev, next) == C.Padded(a, i) + C.MidpointFrom(a, b, i)
  {
    var a, b := C.OrEmpty(prev), C.OrEmpty(next);
    C.MidpointCopies(a, b, i, 0, C.MidpointFrom(a, b, i));
    assert C.Padded(a, i)[0..] == C.Padded(a, i);
  }

  lemma EndsWithRun(a: Rank, b: Rank, i: nat, k: nat)
    requires C.Code(a, i, 97) != C.Code(b, i, 123) && C.Code(b, i, 123) as int - C.Code(a, i, 97) <= 1
    requires RunEnds(a, i + 1, k) && (k <= 40 || k == i + 1)
    ensures C.Padded(a, i) + C.MidpointFrom(a, b, i) == C.Padded(a, k) + [(C.Code(a, k, 97) + 123) / 2]
  {
    ExtendValue(a, i + 1, k);
    PaddedParts(a, i, k);
    Regroup(C.Padded(a, i), [C.Code(a, i, 97)], C.Padded(a, k)[i + 1..], [(C.Code(a, k, 97) + 123) / 2]);
  }

  lemma EndsGivingUp(a: Rank, b: Rank, i: nat, k: nat)
    requires C.Code(a, i, 97) != C.Code(b, i, 123) && C.Code(b, i, 123) as int - C.Code(a, i, 97) <= 1
    requires k == (if i + 1 < 40 then 40 else i + 1) && AllZs(a, i + 1, k)
    ensures C.Padded(a, i) + C.MidpointFrom(a, b, i) == C.Padded(a, k + 1) + [109]
  {
    GiveUpValue(a, i + 1, k);
    PaddedParts(a, i, k + 1);
    Regroup(C.Padded(a, i), [C.Code(a, i, 97)], C.Padded(a, k + 1)[i + 1..], [109]);
  }

  lemma Regroup(p: Rank, q: Rank, r: Rank, t: Rank)
    ensures p + (q + (r + t)) == (p + (q + r)) + t
  {
  }

  lemma PaddedParts(a: Rank, i: nat, k: nat)
    requires i < k
    ensures C.Padded(a, k) == C.Padded(a, i) + ([C.Code(a, i, 97)] + C.Padded(a, k)[i + 1..])
  {
  }

  /** In a document without blocks the first one gets "n". */
  lemma FirstIsN()
    ensures C.Midpoint(None, None) == [110]
  {
    ClientBetween(None, None, 0);
  }
}
