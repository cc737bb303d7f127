/**
 * Rank strings and their order.
 *
 * A rank is the sequence of its character codes.  Python, PostgreSQL (byte order)
 * and JavaScript all compare such strings lexicographically by code.
 */
module Ranks {
  type Rank = seq<nat>

  /** Strict lexicographic order. */
  predicate Lt(a: Rank, b: Rank) {
    && b != []
    && (a == [] || a[0] < b[0] || (a[0] == b[0] && Lt(a[1..], b[1..])))
  }

  predicate Le(a: Rank, b: Rank) {
    a == b || Lt(a, b)
  }

  /** The strings agree below `i`, where `a` ends or has the smaller character. */
  predicate SplitsAt(a: Rank, b: Rank, i: nat) {
    && i <= |a| && i < |b|
    && a[..i] == b[..i]
    && (i == |a| || a[i] < b[i])
  }

  /** `Lt` is decided by the first position where the two strings differ. */
  lemma {:induction false} LtIffSplits(a: Rank, b: Rank)
    ensures Lt(a, b) <==> exists i: nat :: SplitsAt(a, b, i)
  {
    if Lt(a, b) {
      if a == [] || a[0] < b[0] {
        assert SplitsAt(a, b, 0);
      } else {
        LtIffSplits(a[1..], b[1..]);
        var i: nat :| SplitsAt(a[1..], b[1..], i);
        assert a[..i + 1] == [a[0]] + a[1..][..i];
        assert b[..i + 1] == [b[0]] + b[1..][..i];
        assert SplitsAt(a, b, i + 1);
      }
    } else if i: nat :| SplitsAt(a, b, i) {
      SplitsImpliesLt(a, b, i);
    }
  }

  lemma {:induction false} SplitsImpliesLt(a: Rank, b: Rank, i: nat)
    requires SplitsAt(a, b, i)
    ensures Lt(a, b)
    decreases i
  {
    if i > 0 {
      assert a[0] == a[..i][0] == b[..i][0] == b[0];
      assert a[1..][..i - 1] == a[..i][1..] == b[..i][1..] == b[1..][..i - 1];
      SplitsImpliesLt(a[1..], b[1..], i - 1);
    }
  }

  lemma {:induction false} LtIrreflexive(a: Rank)
    ensures !Lt(a, a)
  {
    if a != [] {
      LtIrreflexive(a[1..]);
    }
  }

  lemma {:induction false} LtTransitive(a: Rank, b: Rank, c: Rank)
    requires Lt(a, b) && Lt(b, c)
    ensures Lt(a, c)
  {
    if a != [] && a[0] == b[0] == c[0] {
      LtTransitive(a[1..], b[1..], c[1..]);
    }
  }

  lemma {:induction false} LtTotal(a: Rank, b: Rank)
    ensures a == b || Lt(a, b) || Lt(b, a)
  {
    if a != [] && b != [] && a[0] == b[0] {
      LtTotal(a[1..], b[1..]);
      assert a == [a[0]] + a[1..] && b == [b[0]] + b[1..];
    }
  }

  lemma LtAsymmetric(a: Rank, b: Rank)
    requires Lt(a, b)
    ensures !Lt(b, a) && a != b
  {
    if Lt(b, a) {
      LtTransitive(a, b, a);
    }
    LtIrreflexive(a);
  }

  /** Exactly one of `Lt(a, b)` and `Le(b, a)`. */
  lemma NotLtIsGe(a: Rank, b: Rank)
    ensures !Lt(a, b) <==> Le(b, a)
  {
    LtTotal(a, b);
    LtIrreflexive(a);
    if Lt(a, b) {
      LtAsymmetric(a, b);
    }
  }

  lemma LeLtTransitive(a: Rank, b: Rank, c: Rank)
    requires (Le(a, b) && Lt(b, c)) || (Lt(a, b) && Le(b, c))
    ensures Lt(a, c)
  {
    if a != b && b != c {
      LtTransitive(a, b, c);
    }
  }

  lemma {:induction false} ExtensionIsGreater(a: Rank, tail: Rank)
    requires tail != []
    ensures Lt(a, a + tail)
  {
    if a != [] {
      ExtensionIsGreater(a[1..], tail);
      assert (a + tail)[1..] == a[1..] + tail;
    }
  }
}
