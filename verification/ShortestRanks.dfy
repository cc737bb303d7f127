/** When the base-36 midpoint is a shortest string between its bounds, as its docstring says: apps/api/app/lexorank.py. */
module ShortestRanks {
  import opened Wrappers
  import opened Ranks
  import opened ServerRanks

  const MAX_CHAR := 122 // 'z'

  /** The character at `i` of the string padded with '0's. */
  function Digit(s: Rank, i: nat): nat {
    if i < |s| then s[i] else MIN_CHAR
  }

  /** `p` is the first index at which the padded bounds differ. */
  predicate DifferAt(left: Rank, right: Rank, p: nat) {
    Digit(left, p) != Digit(right, p) && forall k: nat :: k < p ==> Digit(left, k) == Digit(right, k)
  }

  function Gap(left: Rank, right: Rank, p: nat): int
    requires Valid(left) && Valid(right)
  {
    CharValue(Digit(right, p)) - CharValue(Digit(left, p))
  }

  predicate AllMaxFrom(s: Rank, i: nat) {
    forall k :: i <= k < |s| ==> s[k] == MAX_CHAR
  }

  /** A digit fits between and `left` reaches up to it; or `right` ends right there and `left` goes on with 'z's only. */
  predicate NothingShorterAt(left: Rank, right: Rank, p: nat)
    requires Valid(left) && Valid(right)
  {
    && DifferAt(left, right, p)
    && if Gap(left, right, p) > 1 then p <= |left|
       else |right| == p + 1 && p + 1 <= |left| && AllMaxFrom(left, p + 1)
  }

  ghost predicate StrictlyBetween(left: Rank, m: Rank, right: Rank) {
    Valid(m) && Lt(left, m) && Lt(m, right)
  }

  ghost predicate IsShortestBetween(left: Rank, right: Rank, r: Rank) {
    StrictlyBetween(left, r, right) && forall m :: StrictlyBetween(left, m, right) ==> |r| <= |m|
  }

  // --------------------------------------------------- the result at the difference

  lemma {:induction false} ScanCopies(a: Rank, b: Rank, p: nat)
    requires |a| == |b| && p < |a| && a[..p] == b[..p] && a[p] != b[p] && Valid(a) && Valid(b)
    ensures Scan(a, b) == Prefixed(a[..p], Scan(a[p..], b[p..]))
    decreases p
  {
    if p == 0 {
      assert a[..0] == [] && a[0..] == a && b[0..] == b;
      PrefixedNone(Scan(a, b));
    } else {
      assert a[0] == a[..p][0] == b[..p][0] == b[0];
      assert a[1..][..p - 1] == a[..p][1..] == b[..p][1..] == b[1..][..p - 1];
      ScanCopies(a[1..], b[1..], p - 1);
      assert a[1..][p - 1..] == a[p..] && b[1..][p - 1..] == b[p..];
      PrefixedOnto(a[0], a[1..][..p - 1], Scan(a[p..], b[p..]));
      assert [a[0]] + a[1..][..p - 1] == a[..p];
    }
  }

  lemma PrefixedOnto(c: nat, head: Rank, r: Result<Rank, RankError>)
    ensures Prefixed([c], Prefixed(head, r)) == Prefixed([c] + head, r)
  {
    if r.Ok? {
      assert [c] + (head + r.value) == ([c] + head) + r.value;
    }
  }

  lemma {:induction false} DifferSomewhere(left: Rank, right: Rank, k: nat) returns (p: nat)
    requires Lt(left, right) && !ZeroExtension(left, right) && k <= |right|
    requires forall i: nat :: i < k ==> Digit(left, i) == Digit(right, i)
    requires Valid(left) && Valid(right)
    ensures DifferAt(left, right, p) && p < |right|
    decreases |right| - k
  {
    p := k;
    if k < |right| && Digit(left, k) == right[k] {
      p := DifferSomewhere(left, right, k + 1);
    } else if k == |right| {
      SameDigitsAreZeroExtension(left, right);
    }
  }

  lemma LongerLeftIsAbove(left: Rank, right: Rank)
    requires |left| > |right| && forall i: nat :: i < |right| ==> Digit(left, i) == right[i]
    ensures !Lt(left, right)
  {
    var rest := left[|right|..];
    assert left == right + rest;
    ExtensionIsGreater(right, rest);
    NotLtIsGe(left, right);
  }

  lemma SameDigitsAreZeroExtension(left: Rank, right: Rank)
    requires Lt(left, right) && forall i: nat :: i < |right| ==> Digit(left, i) == right[i]
    ensures ZeroExtension(left, right)
  {
    if |left| > |right| {
      LongerLeftIsAbove(left, right);
    } else {
      assert left == right[..|left|];
    }
  }

  /** The result stops at the difference if a digit fits between; otherwise it is one longer than the longer bound. */
  lemma LengthAtDifference(left: Rank, right: Rank, p: nat)
    requires Valid(left) && Valid(right) && Lt(left, right) && DifferAt(left, right, p) && p < |right|
    ensures Between(left, right).Ok?
    ensures |Between(left, right).value| == if Gap(left, right, p) > 1 then p + 1 else Max(|left|, |right|) + 1
  {
    var n := Max(|left|, |right|);
    var a, b := Pad(left, n), Pad(right, n);
    PadIsDigits(left, n);
    PadIsDigits(right, n);
    ScanCopies(a, b, p);
    assert a[p..][0] == Digit(left, p) && b[p..][0] == Digit(right, p);
  }

  lemma PadIsDigits(s: Rank, n: nat)
    requires |s| <= n && Valid(s)
    ensures |Pad(s, n)| == n && Valid(Pad(s, n)) && forall i :: 0 <= i < n ==> Pad(s, n)[i] == Digit(s, i)
  {
  }

  lemma OrderAtDifference(left: Rank, right: Rank, p: nat)
    requires Lt(left, right) && DifferAt(left, right, p) && p < |right|
    requires Valid(left) && Valid(right)
    ensures Digit(left, p) < right[p]
  {
    LtIffSplits(left, right);
    var i: nat :| SplitsAt(left, right, i);
    assert i < p ==> Digit(left, i) == Digit(right, i);
    if i > p {
      assert left[..i][p] == right[..i][p];
    }
  }

  lemma DigitsAgree(left: Rank, right: Rank, p: nat, i: nat)
    requires DifferAt(left, right, p) && i < p
    ensures Digit(left, i) == Digit(right, i)
  {
  }

  // --------------------------------------------------------- nothing shorter fits

  lemma SplitAgrees(a: Rank, b: Rank, i: nat, k: nat)
    requires SplitsAt(a, b, i) && k < i
    ensures a[k] == b[k]
  {
    assert a[..i][k] == b[..i][k];
  }

  /** Strings strictly between the bounds part from `left` no earlier than the bounds do. */
  lemma PartsLate(left: Rank, m: Rank, right: Rank, p: nat, i: nat, j: nat)
    requires DifferAt(left, right, p) && p <= |left| && p < |right|
    requires SplitsAt(left, m, i) && SplitsAt(m, right, j)
    ensures i >= p && j >= p
  {
    if i < p {
      DigitsAgree(left, right, p, i);
      if j > i {
        SplitAgrees(m, right, j, i);
      } else if j < i {
        DigitsAgree(left, right, p, j);
        SplitAgrees(left, m, i, j);
      }
    } else if j < p {
      DigitsAgree(left, right, p, j);
      SplitAgrees(left, m, i, j);
    }
  }

  lemma ShortestWithGap(left: Rank, m: Rank, right: Rank, p: nat)
    requires DifferAt(left, right, p) && p <= |left| && p < |right| && StrictlyBetween(left, m, right)
    ensures |m| >= p + 1
  {
    LtIffSplits(left, m);
    LtIffSplits(m, right);
    var i: nat :| SplitsAt(left, m, i);
    var j: nat :| SplitsAt(m, right, j);
    PartsLate(left, m, right, p, i, j);
  }

  lemma NoCodeBetween(a: nat, b: nat, c: nat)
    requires InAlphabet(a) && InAlphabet(b) && InAlphabet(c) && a < c < b
    ensures CharValue(b) - CharValue(a) > 1
  {
  }

  lemma NothingAboveMax(m: Rank, i: nat)
    requires Valid(m) && i < |m|
    ensures m[i] <= MAX_CHAR
  {
  }

  lemma ShortestWithoutGap(left: Rank, m: Rank, right: Rank, p: nat)
    requires Valid(left) && Valid(right) && NothingShorterAt(left, right, p) && Gap(left, right, p) <= 1 && StrictlyBetween(left, m, right)
    ensures |m| >= |left| + 1
  {
    LtIffSplits(left, m);
    LtIffSplits(m, right);
    var i: nat :| SplitsAt(left, m, i);
    var j: nat :| SplitsAt(m, right, j);
    PartsLate(left, m, right, p, i, j);
    NothingAboveMax(m, i);
    if i == p {
      NoCodeBetween(left[p], right[p], m[p]);
    }
  }

  // -------------------------------------------------------- something shorter fits

  lemma LeftBelow(left: Rank, m: Rank, right: Rank, p: nat)
    requires DifferAt(left, right, p) && |left| <= p < |m| && p < |right| && m[..p] == right[..p]
    ensures Lt(left, m)
  {
    forall k | 0 <= k < |left|
      ensures left[k] == m[k]
    {
      DigitsAgree(left, right, p, k);
      assert m[k] == m[..p][k] == right[..p][k];
    }
    assert SplitsAt(left, m, |left|);
    LtIffSplits(left, m);
  }

  lemma ShorterZeros(left: Rank, right: Rank, p: nat) returns (m: Rank)
    requires Valid(left) && Valid(right) && DifferAt(left, right, p) && |left| < p < |right|
    ensures StrictlyBetween(left, m, right) && |m| == |left| + 1
  {
    m := right[..|left| + 1];
    forall k | 0 <= k < |left|
      ensures left[k] == m[k]
    {
      DigitsAgree(left, right, p, k);
    }
    assert SplitsAt(left, m, |left|);
    LtIffSplits(left, m);
    assert right == m + right[|m|..];
    ExtensionIsGreater(m, right[|m|..]);
  }

  lemma ShorterPrefix(left: Rank, right: Rank, p: nat) returns (m: Rank)
    requires Valid(left) && Valid(right) && Lt(left, right) && DifferAt(left, right, p) && p + 1 < |right|
    ensures StrictlyBetween(left, m, right) && |m| == p + 1
  {
    m := right[..p + 1];
    assert right == m + right[|m|..];
    ExtensionIsGreater(m, right[|m|..]);
    assert m[..p] == right[..p];
    if |left| <= p {
      LeftBelow(left, m, right, p);
    } else {
      OrderAtDifference(left, right, p);
      PrefixesAgree(left, right, p);
      assert SplitsAt(left, m, p);
      LtIffSplits(left, m);
    }
  }

  lemma PrefixesAgree(left: Rank, right: Rank, p: nat)
    requires DifferAt(left, right, p) && p <= |left| && p <= |right|
    ensures left[..p] == right[..p]
  {
    forall k | 0 <= k < p
      ensures left[k] == right[k]
    {
      DigitsAgree(left, right, p, k);
    }
  }

  lemma ShorterZero(left: Rank, right: Rank, p: nat) returns (m: Rank)
    requires Valid(left) && Valid(right) && Lt(left, right) && DifferAt(left, right, p) && |left| <= p < |right|
    ensures StrictlyBetween(left, m, right) && |m| == p + 1
  {
    m := right[..p] + [MIN_CHAR];
    assert m[..p] == right[..p];
    OrderAtDifference(left, right, p);
    LeftBelow(left, m, right, p);
    assert SplitsAt(m, right, p);
    LtIffSplits(m, right);
  }

  lemma ShorterBelowMax(left: Rank, right: Rank, p: nat, j: nat) returns (m: Rank)
    requires Valid(left) && Valid(right) && Lt(left, right) && DifferAt(left, right, p) && p < |right|
    requires p < j < |left| && left[j] != MAX_CHAR
    ensures StrictlyBetween(left, m, right) && |m| == j + 1
  {
    m := left[..j] + [MAX_CHAR];
    assert m[..j] == left[..j];
    assert SplitsAt(left, m, j);
    LtIffSplits(left, m);
    OrderAtDifference(left, right, p);
    PrefixesAgree(left, right, p);
    assert m[..p] == left[..p] && m[p] == left[p];
    assert SplitsAt(m, right, p);
    LtIffSplits(m, right);
  }

  lemma SomethingShorter(left: Rank, right: Rank, p: nat) returns (m: Rank)
    requires Valid(left) && Valid(right) && Lt(left, right) && DifferAt(left, right, p) && p < |right|
    requires !NothingShorterAt(left, right, p)
    ensures StrictlyBetween(left, m, right)
    ensures |m| < if Gap(left, right, p) > 1 then p + 1 else Max(|left|, |right|) + 1
  {
    if Gap(left, right, p) > 1 {
      m := ShorterZeros(left, right, p);
    } else if |right| > p + 1 {
      m := ShorterPrefix(left, right, p);
    } else if |left| <= p {
      m := ShorterZero(left, right, p);
    } else {
      var j :| p + 1 <= j < |left| && left[j] != MAX_CHAR;
      m := ShorterBelowMax(left, right, p, j);
    }
  }

  lemma NothingShorter(left: Rank, right: Rank, p: nat, m: Rank)
    requires Valid(left) && Valid(right) && NothingShorterAt(left, right, p) && p < |right| && StrictlyBetween(left, m, right)
    ensures |m| >= if Gap(left, right, p) > 1 then p + 1 else Max(|left|, |right|) + 1
  {
    if Gap(left, right, p) > 1 {
      ShortestWithGap(left, m, right, p);
    } else {
      ShortestWithoutGap(left, m, right, p);
    }
  }

  lemma DifferOnce(left: Rank, right: Rank, p: nat, q: nat)
    requires DifferAt(left, right, p) && DifferAt(left, right, q)
    ensures p == q
  {
  }

  /** Two bounds: the result is a shortest rank in between exactly if nothing shorter fits at their first difference. */
  lemma ShortestBetweenIff(left: Rank, right: Rank)
    requires Valid(left) && Valid(right) && Lt(left, right) && !ZeroExtension(left, right)
    ensures Between(left, right).Ok?
    ensures IsShortestBetween(left, right, Between(left, right).value) <==> exists p: nat :: NothingShorterAt(left, right, p)
  {
    BetweenExact(left, right);
    var r := Between(left, right).value;
    var p := DifferSomewhere(left, right, 0);
    LengthAtDifference(left, right, p);
    if NothingShorterAt(left, right, p) {
      forall m | StrictlyBetween(left, m, right)
        ensures |r| <= |m|
      {
        NothingShorter(left, right, p, m);
      }
    } else {
      var m := SomethingShorter(left, right, p);
      if q: nat :| NothingShorterAt(left, right, q) {
        DifferOnce(left, right, p, q);
      }
    }
  }

  // ------------------------------------------------------------------ open bounds

  ghost predicate FitsIn(left: Option<Rank>, m: Rank, right: Option<Rank>) {
    Valid(m) && m != [] && StrictlyWithin(left, m, right)
  }

  ghost predicate IsShortest(left: Option<Rank>, right: Option<Rank>, r: Rank) {
    FitsIn(left, r, right) && forall m :: FitsIn(left, m, right) ==> |r| <= |m|
  }

  /** An open right bound asks for 'z's only on the left; an open left bound for a first digit other than '0'. */
  ghost predicate NothingShorterFits(left: Option<Rank>, right: Option<Rank>)
    requires ValidBound(left) && ValidBound(right)
  {
    match (left, right)
    case (None, None) => true
    case (Some(l), None) => AllMaxFrom(l, 0)
    case (None, Some(r)) => r != [] && r[0] != MIN_CHAR
    case (Some(l), Some(r)) => exists p: nat :: NothingShorterAt(l, r, p)
  }

  lemma {:induction false} AboveMaxIsLonger(left: Rank, m: Rank)
    requires Valid(m) && AllMaxFrom(left, 0) && Lt(left, m)
    ensures |m| > |left|
  {
    LtIffSplits(left, m);
    var i: nat :| SplitsAt(left, m, i);
    NothingAboveMax(m, i);
  }

  lemma AfterIsShortestIff(left: Rank)
    requires Valid(left)
    ensures IsShortest(Some(left), None, After(left)) <==> AllMaxFrom(left, 0)
  {
    AfterIsGreater(left);
    if AllMaxFrom(left, 0) {
      forall m | FitsIn(Some(left), m, None)
        ensures |m| >= |left| + 1
      {
        AboveMaxIsLonger(left, m);
      }
    } else {
      var j :| 0 <= j < |left| && left[j] != MAX_CHAR;
      var m := left[..j] + [MAX_CHAR];
      assert m[..j] == left[..j];
      NothingAboveMax(left, j);
      assert SplitsAt(left, m, j);
      LtIffSplits(left, m);
      assert FitsIn(Some(left), m, None);
    }
  }

  lemma BeforeIsShortestIff(right: Rank)
    requires Valid(right) && !AllZero(right)
    ensures Before(right).Ok? && (IsShortest(None, Some(right), Before(right).value) <==> right[0] != MIN_CHAR)
  {
    BeforeSpec(right);
    var r := Before(right).value;
    if right[0] == MIN_CHAR {
      var m := [MIN_CHAR];
      assert right == m + right[1..];
      ExtensionIsGreater(m, right[1..]);
      assert FitsIn(None, m, Some(right));
      assert Before(right[1..]).Ok? && Before(right[1..]).value != [] by {
        BeforeSpec(right[1..]);
      }
      assert |r| > 1;
    } else {
      MidpointExact(None, Some(right));
      assert |r| == 1;
    }
  }

  /** For all bounds with room, open ones included: the result is a shortest rank within them exactly if nothing shorter fits. */
  lemma ShortestIff(left: Option<Rank>, right: Option<Rank>)
    requires ValidBound(left) && ValidBound(right) && HasRoom(left, right)
    ensures Midpoint(left, right).Ok?
    ensures IsShortest(left, right, Midpoint(left, right).value) <==> NothingShorterFits(left, right)
  {
    MidpointExact(left, right);
    match (left, right)
    case (None, None) =>
    case (Some(l), None) => AfterIsShortestIff(l);
    case (None, Some(r)) => BeforeIsShortestIff(r);
    case (Some(l), Some(r)) =>
      ShortestBetweenIff(l, r);
      assert forall m :: StrictlyBetween(l, m, r) ==> m != [];
      assert forall m :: FitsIn(left, m, right) <==> StrictlyBetween(l, m, r);
  }

  /** "ai" is returned after "a", where "b" fits, and "05" before "0a", where "0" fits. */
  lemma OpenIsNotShortest()
    ensures Midpoint(Some([97]), None) == Ok([97, MID_CHAR]) && FitsIn(Some([97]), [98], None)
    ensures Midpoint(None, Some([MIN_CHAR, 97])) == Ok([MIN_CHAR, 53]) && FitsIn(None, [MIN_CHAR], Some([MIN_CHAR, 97]))
  {
    var right: Rank := [MIN_CHAR, 97];
    assert After([97]) == [97, MID_CHAR];
    assert right[1..] == [97] && [MIN_CHAR] + [53] == [MIN_CHAR, 53];
    assert Before([97]) == Ok([53]);
    ExtensionIsGreater([MIN_CHAR], [97]);
    assert [MIN_CHAR] + [97] == right;
  }
}
