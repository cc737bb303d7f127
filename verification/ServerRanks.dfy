/** The base-36 rank generator of apps/api/app/lexorank.py. */
module ServerRanks {
  import opened Wrappers
  import opened Ranks

  const BASE := 36
  const MIN_CHAR := 48             // '0'
  const MID_CHAR := Alphabet(18)   // 'i'
  const DEFAULT_SEED: Rank := [109] // "m"

  /** Why rank generation raises ValueError. */
  datatype RankError = OutOfAlphabet | OutOfOrder | IdenticalAfterPadding

  /** The character with index `v` in 0-9a-z. */
  function Alphabet(v: nat): nat
    requires v < BASE
  {
    if v < 10 then 48 + v else 87 + v
  }

  predicate InAlphabet(c: nat) {
    48 <= c <= 57 || 97 <= c <= 122
  }

  function CharValue(c: nat): (v: nat)
    requires InAlphabet(c)
    ensures v < BASE && Alphabet(v) == c
  {
    if c <= 57 then c - 48 else c - 87
  }

  predicate Valid(r: Rank) {
    forall i :: 0 <= i < |r| ==> InAlphabet(r[i])
  }

  predicate AllZero(r: Rank) {
    forall i :: 0 <= i < |r| ==> r[i] == MIN_CHAR
  }

  predicate EndsNonZero(r: Rank) {
    r != [] && r[|r| - 1] != MIN_CHAR
  }

  function Zeros(n: nat): (z: Rank)
    ensures |z| == n && AllZero(z)
  {
    seq(n, _ => MIN_CHAR)
  }

  function Pad(s: Rank, length: nat): Rank {
    if |s| >= length then s else s + Zeros(length - |s|)
  }

  function Max(a: nat, b: nat): nat {
    if a < b then b else a
  }

  // ------------------------------------------------------------ specification

  function After(left: Rank): Rank {
    left + [MID_CHAR]
  }

  /** Puts `head` in front of a generated rank; an error stays an error. */
  function Prefixed(head: Rank, r: Result<Rank, RankError>): Result<Rank, RankError> {
    match r
    case Ok(m) => Ok(head + m)
    case Err(e) => Err(e)
  }

  /** The scan over two padded strings. */
  function Scan(a: Rank, b: Rank): Result<Rank, RankError>
    requires |a| == |b|
  {
    if a == [] then Err(IdenticalAfterPadding)
    else if !InAlphabet(a[0]) || !InAlphabet(b[0]) then Err(OutOfAlphabet)
    else if a[0] == b[0] then Prefixed([a[0]], Scan(a[1..], b[1..]))
    else
      var av: int, bv: int := CharValue(a[0]), CharValue(b[0]);
      if bv - av > 1 then Ok([Alphabet((av + bv) / 2)])
      else Ok([a[0]] + After(a[1..]))
  }

  function Between(left: Rank, right: Rank): Result<Rank, RankError> {
    if !Lt(left, right) then Err(OutOfOrder)
    else
      var n := Max(|left|, |right|);
      Scan(Pad(left, n), Pad(right, n))
  }

  function Before(right: Rank): Result<Rank, RankError> {
    if right == [] then Ok([MID_CHAR])
    else if !InAlphabet(right[0]) then Err(OutOfAlphabet)
    else if right[0] == MIN_CHAR then Prefixed([MIN_CHAR], Before(right[1..]))
    else Ok([Alphabet(CharValue(right[0]) / 2)])
  }

  function Midpoint(left: Option<Rank>, right: Option<Rank>): Result<Rank, RankError> {
    match (left, right)
    case (None, None) => Ok(DEFAULT_SEED)
    case (None, Some(r)) => Before(r)
    case (Some(l), None) => Ok(After(l))
    case (Some(l), Some(r)) => Between(l, r)
  }

  // ----------------------------------------------------------------- programs

  lemma PrefixedTwice(out: Rank, c: nat, r: Result<Rank, RankError>)
    ensures Prefixed(out, Prefixed([c], r)) == Prefixed(out + [c], r)
  {
    if r.Ok? {
      assert out + ([c] + r.value) == (out + [c]) + r.value;
    }
  }

  lemma PrefixedNone(r: Result<Rank, RankError>)
    ensures Prefixed([], r) == r
  {
    if r.Ok? {
      assert [] + r.value == r.value;
    }
  }

  method ComputeBefore(right: Rank) returns (r: Result<Rank, RankError>)
    ensures r == Before(right)
  {
    var out: Rank := [];
    PrefixedNone(Before(right));
    assert right[0..] == right;
    for i := 0 to |right|
      invariant Before(right) == Prefixed(out, Before(right[i..]))
    {
      var c := right[i];
      assert right[i..][0] == c && right[i..][1..] == right[i + 1..];
      if !InAlphabet(c) {
        return Err(OutOfAlphabet);
      }
      var cv := CharValue(c);
      if cv == 0 {
        PrefixedTwice(out, c, Before(right[i + 1..]));
        out := out + [c];
        continue;
      }
      return Ok(out + [Alphabet(cv / 2)]);
    }
    return Ok(out + [MID_CHAR]);
  }

  lemma ScanAt(a: Rank, b: Rank, i: nat)
    requires |a| == |b| && i < |a| && InAlphabet(a[i]) && InAlphabet(b[i])
    ensures var av: int, bv: int := CharValue(a[i]), CharValue(b[i]);
            Scan(a[i..], b[i..]) ==
              if av == bv then Prefixed([a[i]], Scan(a[i + 1..], b[i + 1..]))
              else if bv - av > 1 then Ok([Alphabet((av + bv) / 2)])
              else Ok([a[i]] + After(a[i + 1..]))
  {
    assert a[i..][1..] == a[i + 1..] && b[i..][1..] == b[i + 1..];
  }

  /** The loop of `midpoint` over the padded bounds. */
  method ScanPadded(a: Rank, b: Rank) returns (r: Result<Rank, RankError>)
    requires |a| == |b|
    ensures r == Scan(a, b)
  {
    var out: Rank := [];
    PrefixedNone(Scan(a, b));
    assert a[0..] == a && b[0..] == b;
    for i := 0 to |a|
      invariant Scan(a, b) == Prefixed(out, Scan(a[i..], b[i..]))
    {
      if !InAlphabet(a[i]) || !InAlphabet(b[i]) {
        return Err(OutOfAlphabet);
      }
      ScanAt(a, b, i);
      var av: int, bv: int := CharValue(a[i]), CharValue(b[i]);
      if av == bv {
        PrefixedTwice(out, a[i], Scan(a[i + 1..], b[i + 1..]));
        out := out + [a[i]];
        continue;
      }
      if bv - av > 1 {
        return Ok(out + [Alphabet((av + bv) / 2)]);
      }
      PrefixedTwice(out, a[i], Ok(After(a[i + 1..])));
      out := out + [a[i]];
      return Ok(out + After(a[i + 1..]));
    }
    return Err(IdenticalAfterPadding);
  }

  method ComputeMidpoint(left: Option<Rank>, right: Option<Rank>) returns (r: Result<Rank, RankError>)
    ensures r == Midpoint(left, right)
  {
    if left.None? && right.None? {
      return Ok(DEFAULT_SEED);
    }
    if left.None? {
      r := ComputeBefore(right.value);
      return;
    }
    if right.None? {
      return Ok(After(left.value));
    }
    if !Lt(left.value, right.value) {
      return Err(OutOfOrder);
    }
    var length := Max(|left.value|, |right.value|);
    r := ScanPadded(Pad(left.value, length), Pad(right.value, length));
  }

  /** `count` ranks chained from `left`, each the midpoint of its predecessor and `right`. */
  function Chain(left: Option<Rank>, right: Option<Rank>, count: nat): Result<seq<Rank>, RankError> {
    if count == 0 then Ok([])
    else
      var shorter := Chain(left, right, count - 1);
      if shorter.Err? then shorter
      else
        var m := Midpoint(NextLeft(left, shorter.value), right);
        if m.Err? then Err(m.error) else Ok(shorter.value + [m.value])
  }

  /** The left bound for the rank that follows `ranks`. */
  function NextLeft(left: Option<Rank>, ranks: seq<Rank>): Option<Rank> {
    if ranks == [] then left else Some(ranks[|ranks| - 1])
  }

  lemma ErrStays(left: Option<Rank>, right: Option<Rank>, k: nat)
    requires Chain(left, right, k).Err?
    ensures Chain(left, right, k + 1) == Chain(left, right, k)
  {
  }

  lemma {:induction false} ChainErrs(left: Option<Rank>, right: Option<Rank>, k: nat, count: nat)
    requires k <= count && Chain(left, right, k).Err?
    ensures Chain(left, right, count) == Chain(left, right, k)
    decreases count - k
  {
    if k < count {
      ErrStays(left, right, k);
      ChainErrs(left, right, k + 1, count);
    }
  }

  lemma ChainNext(left: Option<Rank>, right: Option<Rank>, ranks: seq<Rank>, i: nat, m: Result<Rank, RankError>, count: nat)
    requires Chain(left, right, i) == Ok(ranks) && m == Midpoint(NextLeft(left, ranks), right) && i < count
    ensures m.Ok? ==> Chain(left, right, i + 1) == Ok(ranks + [m.value])
    ensures m.Err? ==> Chain(left, right, count) == Err(m.error)
  {
    if m.Err? {
      ChainErrs(left, right, i + 1, count);
    }
  }

  method MidpointsBetween(left: Option<Rank>, right: Option<Rank>, count: int)
    returns (r: Result<seq<Rank>, RankError>)
    ensures r == if count <= 0 then Ok([]) else Chain(left, right, count)
  {
    if count <= 0 {
      return Ok([]);
    }
    var ranks: seq<Rank> := [];
    var currentLeft := left;
    for i := 0 to count
      invariant Chain(left, right, i) == Ok(ranks)
      invariant currentLeft == NextLeft(left, ranks)
    {
      var m := ComputeMidpoint(currentLeft, right);
      ChainNext(left, right, ranks, i, m, count);
      if m.Err? {
        return Err(m.error);
      }
      ranks := ranks + [m.value];
      currentLeft := Some(m.value);
    }
    return Ok(ranks);
  }

  // --------------------------------------------------------------- properties

  /** `right` is `left` followed by nothing but '0's. */
  predicate ZeroExtension(left: Rank, right: Rank) {
    left <= right && AllZero(right[|left|..])
  }

  function Rest(r: Rank): Rank {
    if r == [] then [] else r[1..]
  }

  lemma PadRest(s: Rank, n: nat)
    requires |s| <= n && n > 0
    ensures |Pad(s, n)| == n
    ensures Pad(s, n)[0] == if s == [] then MIN_CHAR else s[0]
    ensures Pad(s, n)[1..] == Pad(Rest(s), n - 1)
  {
  }

  lemma ZeroExtensionRest(left: Rank, right: Rank)
    requires right != [] && (if left == [] then right[0] == MIN_CHAR else left[0] == right[0])
    ensures ZeroExtension(left, right) <==> ZeroExtension(Rest(left), right[1..])
  {
    if left == [] {
      assert right == [right[0]] + right[1..];
      assert AllZero(right[1..]) && right[0] == MIN_CHAR ==> AllZero(right);
      assert AllZero(right) ==> forall i :: 0 <= i < |right[1..]| ==> right[1..][i] == right[i + 1];
    } else {
      assert left == [left[0]] + left[1..] && right == [right[0]] + right[1..];
      if |left| <= |right| {
        assert right[1..][|left| - 1..] == right[|left|..];
      }
    }
  }

  /** What a successful scan returns for `left` and `right`, padded to `n`. */
  ghost predicate GoodBetween(left: Rank, right: Rank, n: nat, m: Rank) {
    && Lt(left, m) && Lt(m, right)
    && Valid(m) && EndsNonZero(m)
    && !(m <= right)
    && |m| <= n + 1
  }

  lemma GoodBetweenCons(left: Rank, right: Rank, n: nat, a0: nat, t: Rank)
    requires n > 0 && right != [] && InAlphabet(a0)
    requires a0 == right[0] && a0 == if left == [] then MIN_CHAR else left[0]
    requires GoodBetween(Rest(left), right[1..], n - 1, t)
    ensures GoodBetween(left, right, n, [a0] + t)
  {
    var m := [a0] + t;
    assert m[1..] == t;
  }

  /** A digit of its own fits between the first digits. */
  lemma ScanGap(left: Rank, right: Rank, n: nat, a0: nat, c: nat)
    requires right != [] && InAlphabet(c) && c != MIN_CHAR
    requires a0 == if left == [] then MIN_CHAR else left[0]
    requires a0 < c < right[0]
    ensures GoodBetween(left, right, n, [c])
  {
  }

  /** No digit fits: the padded left bound is extended. */
  lemma ScanTight(left: Rank, right: Rank, n: nat, a0: nat)
    requires Valid(left) && right != [] && |left| <= n && n > 0 && InAlphabet(a0)
    requires a0 == if left == [] then MIN_CHAR else left[0]
    requires a0 < right[0]
    ensures GoodBetween(left, right, n, [a0] + After(Pad(Rest(left), n - 1)))
  {
    var tail := After(Pad(Rest(left), n - 1));
    var m := [a0] + tail;
    assert m[1..] == tail;
    assert Valid(m) by {
      assert Valid(Pad(Rest(left), n - 1));
    }
    if left != [] {
      var more := Zeros(n - 1 - |Rest(left)|) + [MID_CHAR];
      ExtensionIsGreater(Rest(left), more);
      assert tail == Rest(left) + more;
    }
  }

  lemma ScanHead(left: Rank, right: Rank, n: nat, a0: nat)
    requires Valid(left) && Valid(right) && right != []
    requires |left| <= n && |right| <= n && n > 0
    requires a0 == if left == [] then MIN_CHAR else left[0]
    requires a0 < right[0]
    ensures |Pad(left, n)| == |Pad(right, n)| == n
    ensures var r := Scan(Pad(left, n), Pad(right, n)); r.Ok? && GoodBetween(left, right, n, r.value)
  {
    PadRest(left, n);
    PadRest(right, n);
    var av: int, bv: int := CharValue(a0), CharValue(right[0]);
    if bv - av > 1 {
      ScanGap(left, right, n, a0, Alphabet((av + bv) / 2));
    } else {
      ScanTight(left, right, n, a0);
    }
  }

  lemma ScanSame(left: Rank, right: Rank, n: nat, a0: nat)
    requires Valid(left) && Valid(right) && |left| <= n && |right| <= n && n > 0 && right != []
    requires a0 == right[0] && a0 == if left == [] then MIN_CHAR else left[0]
    requires ScanFits(Rest(left), right[1..], n - 1)
    ensures ScanFits(left, right, n)
  {
    PadRest(left, n);
    PadRest(right, n);
    ZeroExtensionRest(left, right);
    var r := Scan(Pad(Rest(left), n - 1), Pad(right[1..], n - 1));
    assert Scan(Pad(left, n), Pad(right, n)) == Prefixed([a0], r);
    if r.Ok? {
      GoodBetweenCons(left, right, n, a0, r.value);
    }
  }

  ghost predicate ScanFits(left: Rank, right: Rank, n: nat) {
    && |Pad(left, n)| == |Pad(right, n)| == n
    && var r := Scan(Pad(left, n), Pad(right, n));
       if ZeroExtension(left, right) then r == Err(IdenticalAfterPadding) else r.Ok? && GoodBetween(left, right, n, r.value)
  }

  lemma {:induction false} ScanSpec(left: Rank, right: Rank, n: nat)
    requires Valid(left) && Valid(right) && Le(left, right)
    requires |left| <= n && |right| <= n
    ensures ScanFits(left, right, n)
    decreases n
  {
    if right == [] {
      ScanNothing(n);
    } else {
      var a0 := if left == [] then MIN_CHAR else left[0];
      if a0 == right[0] {
        ScanSpec(Rest(left), right[1..], n - 1);
        ScanSame(left, right, n, a0);
      } else {
        assert !ZeroExtension(left, right) by {
          assert left == [] ==> right[0..][0] == right[0];
        }
        ScanHead(left, right, n, a0);
      }
    }
  }

  lemma {:induction false} ScanNothing(n: nat)
    ensures ScanFits([], [], n)
  {
    if n > 0 {
      PadRest([], n);
      ScanNothing(n - 1);
    }
  }

  /**
   * Two bounds: a rank strictly between exists for every ordered pair except a pair
   * whose padded forms coincide, and that is the only pair that raises.
   */
  lemma BetweenExact(left: Rank, right: Rank)
    requires Valid(left) && Valid(right)
    ensures Between(left, right).Ok? <==> Lt(left, right) && !ZeroExtension(left, right)
    ensures Between(left, right).Ok? ==>
              GoodBetween(left, right, Max(|left|, |right|), Between(left, right).value)
    ensures Lt(left, right) && ZeroExtension(left, right) ==>
              Between(left, right) == Err(IdenticalAfterPadding)
  {
    if Lt(left, right) {
      ScanSpec(left, right, Max(|left|, |right|));
    }
  }

  /** The branch the source calls impossible is reached: "m" and "m0". */
  lemma IdenticalPaddingIsReachable()
    ensures Lt(DEFAULT_SEED, DEFAULT_SEED + [MIN_CHAR])
    ensures Between(DEFAULT_SEED, DEFAULT_SEED + [MIN_CHAR]) == Err(IdenticalAfterPadding)
  {
    ExtensionIsGreater(DEFAULT_SEED, [MIN_CHAR]);
    BetweenExact(DEFAULT_SEED, DEFAULT_SEED + [MIN_CHAR]);
  }

  /** The result need not be the shortest rank between the bounds: "azi" is returned although "b" fits. */
  lemma BetweenIsNotShortest()
    ensures var left, right := [97, 122], [98, 49];
            && Between(left, right) == Ok([97, 122, MID_CHAR])
            && Lt(left, [98]) && Lt([98], right)
  {
    var left, right: Rank := [97, 122], [98, 49];
    assert Pad(left, 2) == left && Pad(right, 2) == right;
    assert Between(left, right) == Scan(left, right);
    assert CharValue(98) - CharValue(97) == 1;
    assert [97] + After(left[1..]) == [97, 122, MID_CHAR];
    ExtensionIsGreater([98], [49]);
  }

  lemma AfterIsGreater(left: Rank)
    ensures Lt(left, After(left)) && EndsNonZero(After(left))
    ensures Valid(left) ==> Valid(After(left))
  {
    ExtensionIsGreater(left, [MID_CHAR]);
  }

  /** Value of the first character other than '0', and 0 when there is none. */
  function FirstDigit(r: Rank): (v: nat)
    requires Valid(r)
    ensures v == 0 <==> AllZero(r)
    ensures v < BASE
  {
    if r == [] then 0
    else if r[0] == MIN_CHAR then
      assert r == [r[0]] + r[1..];
      FirstDigit(r[1..])
    else CharValue(r[0])
  }

  /** What the rank made for a head insertion above `right` is like. */
  ghost predicate GoodBefore(right: Rank, b: Rank)
    requires Valid(right)
  {
    && Valid(b) && b != []
    && (Lt(b, right) <==> !AllZero(right))
    && (AllZero(right) ==> b == After(right))
    && (!AllZero(right) ==> FirstDigit(b) == FirstDigit(right) / 2 && |b| <= |right| && !(b <= right))
    && (EndsNonZero(b) || AllZero(b))
  }

  lemma BeforeDigit(right: Rank)
    requires Valid(right) && right != [] && right[0] != MIN_CHAR
    ensures Before(right).Ok? && GoodBefore(right, Before(right).value)
  {
    var v := CharValue(right[0]);
    var b := [Alphabet(v / 2)];
    assert FirstDigit(b) == v / 2 by {
      if v / 2 == 0 {
        assert b[1..] == [];
      }
    }
  }

  lemma BeforeZero(right: Rank, t: Rank)
    requires Valid(right) && right != [] && right[0] == MIN_CHAR
    requires Before(right[1..]) == Ok(t) && GoodBefore(right[1..], t)
    ensures GoodBefore(right, [MIN_CHAR] + t)
  {
    var b := [MIN_CHAR] + t;
    assert b[1..] == t;
    assert right == [right[0]] + right[1..];
    assert AllZero(right) <==> AllZero(right[1..]);
  }

  /**
   * The rank made for a head insertion: it never fails, it is smaller exactly when the
   * old head is not all '0', it halves the first digit, and it ends in a non-'0'
   * character or is all '0'.
   */
  lemma {:induction false} BeforeSpec(right: Rank)
    requires Valid(right)
    ensures Before(right).Ok? && GoodBefore(right, Before(right).value)
  {
    if right != [] {
      if right[0] == MIN_CHAR {
        BeforeSpec(right[1..]);
        BeforeZero(right, Before(right[1..]).value);
      } else {
        BeforeDigit(right);
      }
    }
  }

  /** `k` successive head insertions above nothing else, starting at `r`. */
  function HeadInserts(r: Rank, k: nat): (h: Rank)
    requires Valid(r)
    ensures Valid(h)
  {
    if k == 0 then r
    else
      var p := HeadInserts(r, k - 1);
      BeforeSpec(p);
      Before(p).value
  }

  /** Number of halvings that bring `v` to zero. */
  function Halvings(v: nat): nat {
    if v == 0 then 0 else 1 + Halvings(v / 2)
  }

  function Pow2(k: nat): nat {
    if k == 0 then 1 else 2 * Pow2(k - 1)
  }

  /** For v > 0, Halvings(v) is floor(log2 v) + 1. */
  lemma {:induction false} HalvingsIsLog2(v: nat)
    requires v > 0
    ensures Halvings(v) > 0 && Pow2(Halvings(v) - 1) <= v < Pow2(Halvings(v))
  {
    if v > 1 {
      HalvingsIsLog2(v / 2);
    }
  }

  /** Halving `v` `k` times. */
  function Halved(v: nat, k: nat): nat {
    if k == 0 then v else Halved(v, k - 1) / 2
  }

  lemma {:induction false} HalvedZero(v: nat, k: nat)
    ensures Halved(v, k) == 0 <==> Halvings(v) <= k
  {
    if v > 0 && k > 0 {
      HalvedStep(v, k);
      HalvedZero(v / 2, k - 1);
    } else if v == 0 && k > 0 {
      HalvedZero(v, k - 1);
    }
  }

  lemma {:induction false} HalvedStep(v: nat, k: nat)
    requires k > 0
    ensures Halved(v, k) == Halved(v / 2, k - 1)
  {
    if k > 1 {
      HalvedStep(v, k - 1);
    }
  }

  lemma {:induction false} HeadInsertDigit(r: Rank, k: nat)
    requires Valid(r) && k <= Halvings(FirstDigit(r))
    ensures FirstDigit(HeadInserts(r, k)) == Halved(FirstDigit(r), k)
  {
    if k > 0 {
      HeadInsertDigit(r, k - 1);
      HalvedZero(FirstDigit(r), k - 1);
      BeforeSpec(HeadInserts(r, k - 1));
    }
  }

  /**
   * Head insertions descend for exactly floor(log2 v) + 1 steps, v being the first digit;
   * the last of these ranks is all '0', and the insertion after it lands behind it.
   */
  lemma HeadInsertBound(r: Rank, k: nat)
    requires Valid(r)
    ensures k < Halvings(FirstDigit(r)) ==> Lt(HeadInserts(r, k + 1), HeadInserts(r, k))
    ensures k == Halvings(FirstDigit(r)) ==>
              AllZero(HeadInserts(r, k)) && Lt(HeadInserts(r, k), HeadInserts(r, k + 1))
  {
    if k <= Halvings(FirstDigit(r)) {
      HeadInsertDigit(r, k);
      HalvedZero(FirstDigit(r), k);
      var p := HeadInserts(r, k);
      BeforeSpec(p);
      AfterIsGreater(p);
    }
  }

  /** From the seed "m" the descent lasts five insertions. */
  lemma SeedDescent()
    ensures Halvings(FirstDigit(DEFAULT_SEED)) == 5
  {
    assert FirstDigit(DEFAULT_SEED) == 22;
    assert Halvings(22) == 1 + Halvings(11);
    assert Halvings(11) == 1 + Halvings(5);
    assert Halvings(5) == 1 + Halvings(2);
  }

  /** The pairs of bounds with room between them. */
  ghost predicate HasRoom(left: Option<Rank>, right: Option<Rank>) {
    match (left, right)
    case (_, None) => true
    case (None, Some(r)) => !AllZero(r)
    case (Some(l), Some(r)) => Lt(l, r) && !ZeroExtension(l, r)
  }

  ghost predicate ValidBound(b: Option<Rank>) {
    b.Some? ==> Valid(b.value)
  }

  function BoundLength(b: Option<Rank>): nat {
    if b.Some? then |b.value| else 0
  }

  ghost predicate StrictlyWithin(left: Option<Rank>, m: Rank, right: Option<Rank>) {
    (left.Some? ==> Lt(left.value, m)) && (right.Some? ==> Lt(m, right.value))
  }

  /** One call of `midpoint`: it returns a rank strictly within its bounds exactly when there is room. */
  lemma MidpointExact(left: Option<Rank>, right: Option<Rank>)
    requires ValidBound(left) && ValidBound(right)
    ensures var r := Midpoint(left, right);
            (r.Ok? && StrictlyWithin(left, r.value, right)) <==> HasRoom(left, right)
    ensures var r := Midpoint(left, right);
            HasRoom(left, right) ==>
              && Valid(r.value) && r.value != [] && (EndsNonZero(r.value) || AllZero(r.value))
              && |r.value| <= Max(BoundLength(left), BoundLength(right)) + 1
              && HasRoom(Some(r.value), right)
    ensures right.None? ==> Midpoint(left, right) == Ok(if left.None? then [109] else left.value + [105])
    ensures Midpoint(left, right).Err? <==>
              left.Some? && right.Some? && !HasRoom(left, right)
  {
    match (left, right)
    case (None, None) =>
    case (None, Some(r)) => BeforeSpec(r);
    case (Some(l), None) => AfterIsGreater(l);
    case (Some(l), Some(r)) => BetweenExact(l, r);
  }

  /** `ranks` is strictly increasing, strictly within the bounds, and grows by at most one character a step. */
  ghost predicate GoodChain(left: Option<Rank>, right: Option<Rank>, ranks: seq<Rank>) {
    && (forall k :: 0 <= k < |ranks| ==> StrictlyWithin(left, ranks[k], right))
    && (forall k :: 0 <= k < |ranks| ==>
          |ranks[k]| <= Max(BoundLength(left), BoundLength(right)) + k + 1)
    && (forall j, k :: 0 <= j < k < |ranks| ==> Lt(ranks[j], ranks[k]))
  }

  lemma {:induction false} ChainWithRoom(left: Option<Rank>, right: Option<Rank>, count: nat)
    requires ValidBound(left) && ValidBound(right) && HasRoom(left, right)
    ensures var r := Chain(left, right, count);
            && r.Ok? && |r.value| == count && GoodChain(left, right, r.value)
            && ValidBound(NextLeft(left, r.value)) && HasRoom(NextLeft(left, r.value), right)
  {
    if count > 0 {
      ChainWithRoom(left, right, count - 1);
      var ranks := Chain(left, right, count - 1).value;
      var from := NextLeft(left, ranks);
      MidpointExact(from, right);
      ChainNext(left, right, ranks, count - 1, Midpoint(from, right), count);
      ChainExtends(left, right, ranks, Midpoint(from, right).value);
    }
  }

  lemma ChainExtends(left: Option<Rank>, right: Option<Rank>, ranks: seq<Rank>, m: Rank)
    requires GoodChain(left, right, ranks)
    requires StrictlyWithin(NextLeft(left, ranks), m, right)
    requires |m| <= Max(BoundLength(NextLeft(left, ranks)), BoundLength(right)) + 1
    ensures GoodChain(left, right, ranks + [m]) && NextLeft(left, ranks + [m]) == Some(m)
  {
    if ranks != [] {
      var last := ranks[|ranks| - 1];
      assert StrictlyWithin(left, last, right);
      if left.Some? {
        LtTransitive(left.value, last, m);
      }
      forall j | 0 <= j < |ranks|
        ensures Lt(ranks[j], m)
      {
        if j < |ranks| - 1 {
          LtTransitive(ranks[j], last, m);
        }
      }
    }
  }

  /** Bulk generation succeeds, with every promise kept, exactly when the bounds have room. */
  lemma ChainExact(left: Option<Rank>, right: Option<Rank>, count: nat)
    requires ValidBound(left) && ValidBound(right) && count > 0
    ensures var r := Chain(left, right, count);
            (r.Ok? && |r.value| == count && GoodChain(left, right, r.value)) <==> HasRoom(left, right)
  {
    if HasRoom(left, right) {
      ChainWithRoom(left, right, count);
    } else {
      MidpointExact(left, right);
      if Midpoint(left, right).Ok? {
        if Chain(left, right, count).Ok? {
          ChainFirst(left, right, count);
        }
      } else {
        assert Chain(left, right, 1).Err? by {
          assert Chain(left, right, 0) == Ok([]);
        }
        ChainErrs(left, right, 1, count);
      }
    }
  }

  lemma ChainOne(left: Option<Rank>, right: Option<Rank>)
    requires Midpoint(left, right).Ok?
    ensures Chain(left, right, 1) == Ok([Midpoint(left, right).value])
  {
    var none: seq<Rank> := [];
    assert Chain(left, right, 0) == Ok(none) && NextLeft(left, none) == left;
    assert none + [Midpoint(left, right).value] == [Midpoint(left, right).value];
  }

  lemma ChainGrows(left: Option<Rank>, right: Option<Rank>, count: nat)
    requires Chain(left, right, count + 1).Ok?
    ensures Chain(left, right, count).Ok?
    ensures Chain(left, right, count).value <= Chain(left, right, count + 1).value
    ensures |Chain(left, right, count + 1).value| == |Chain(left, right, count).value| + 1
  {
  }

  lemma FirstStays(m: Rank, before: seq<Rank>, now: seq<Rank>)
    requires before != [] && before[0] == m && before <= now
    ensures now != [] && now[0] == m
  {
  }

  lemma {:induction false} ChainFirst(left: Option<Rank>, right: Option<Rank>, count: nat)
    requires count > 0 && Midpoint(left, right).Ok? && Chain(left, right, count).Ok?
    ensures var ranks := Chain(left, right, count).value; |ranks| == count && ranks[0] == Midpoint(left, right).value
  {
    if count == 1 {
      ChainOne(left, right);
    } else {
      ChainGrows(left, right, count - 1);
      ChainFirst(left, right, count - 1);
      FirstStays(Midpoint(left, right).value, Chain(left, right, count - 1).value, Chain(left, right, count).value);
    }
  }
}
