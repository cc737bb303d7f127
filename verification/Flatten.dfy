/** The tree-ordered listing of the client's blocks: flattenBlocks in apps/web/src/store/block-store.ts. */
module Flatten {
  import opened Wrappers
  import opened Ranks
  import opened Forest
  import opened BlockIndex

  type Path = seq<Id>

  /** A chain of blocks from one with a null parent downwards. */
  ghost predicate IsPath(blocks: Blocks, p: Path) {
    && p != [] && Present(blocks, p)
    && blocks[p[0]].parent.None?
    && forall i :: 0 < i < |p| ==> blocks[p[i]].parent == Some(p[i - 1])
  }

  /** The block a path ends in; 0 for no path at all. */
  function Last(p: Path): Id {
    if p == [] then 0 else p[|p| - 1]
  }

  lemma {:induction false} PathUnique(blocks: Blocks, p: Path, q: Path)
    requires IsPath(blocks, p) && IsPath(blocks, q) && Last(p) == Last(q)
    ensures p == q
    decreases |p|
  {
    assert p == p[..|p| - 1] + [Last(p)] && q == q[..|q| - 1] + [Last(q)];
    assert |p| > 1 ==> blocks[p[|p| - 1]].parent == Some(p[|p| - 2]);
    assert |q| > 1 ==> blocks[q[|q| - 1]].parent == Some(q[|q| - 2]);
    if |p| > 1 && |q| > 1 {
      PathUnique(blocks, p[..|p| - 1], q[..|q| - 1]);
    }
  }

  /** A path visits no block twice, so it is no longer than the map, even when the map has cycles elsewhere. */
  lemma PathIsShort(blocks: Blocks, p: Path)
    requires IsPath(blocks, p)
    ensures |p| <= |blocks|
  {
    forall i, j | 0 <= i < j < |p|
      ensures p[i] != p[j]
    {
      if p[i] == p[j] {
        PathUnique(blocks, p[..i + 1], p[..j + 1]);
      }
    }
    DistinctIsShort(p, blocks.Keys);
  }

  lemma {:induction false} DistinctIsShort(l: seq<Id>, s: set<Id>)
    requires NoDuplicates(l) && forall i :: 0 <= i < |l| ==> l[i] in s
    ensures |l| <= |s|
  {
    if l != [] {
      DistinctIsShort(l[1..], s - {l[0]});
    }
  }

  // ------------------------------------------------------------ specification

  /** `p` is where a walk stands: nowhere, or at the end of a path. */
  ghost predicate Standing(blocks: Blocks, p: Path) {
    p == [] || IsPath(blocks, p)
  }

  function ParentAt(p: Path): Option<Id> {
    if p == [] then None else Some(Last(p))
  }

  /** All of `l` are children of the block `p` ends in. */
  ghost predicate AreChildren(blocks: Blocks, l: seq<Id>, p: Path) {
    Present(blocks, l) && forall i :: 0 <= i < |l| ==> blocks[l[i]].parent == ParentAt(p)
  }

  lemma StepDown(blocks: Blocks, rootOrder: seq<Id>, childrenMap: Children, p: Path, x: Id)
    requires IsIndex(blocks, rootOrder, childrenMap) && Standing(blocks, p)
    requires x in blocks && blocks[x].parent == ParentAt(p)
    ensures IsPath(blocks, p + [x]) && |p| < |blocks|
    ensures AreChildren(blocks, Kids(childrenMap, x), p + [x])
  {
    assert IsPath(blocks, p + [x]);
    PathIsShort(blocks, p + [x]);
  }

  /** The paths to everything below the blocks `l`, in the order the walk reaches them; no path is longer than the map. */
  ghost function Walks(blocks: Blocks, childrenMap: Children, l: seq<Id>, p: Path): seq<Path>
    decreases |blocks| - |p|, |l|
  {
    if l == [] || |p| >= |blocks| then []
    else
      var q := p + [l[0]];
      [q] + Walks(blocks, childrenMap, Kids(childrenMap, l[0]), q) + Walks(blocks, childrenMap, l[1..], p)
  }

  ghost function Lasts(ws: seq<Path>): seq<Id> {
    seq(|ws|, i requires 0 <= i < |ws| => Last(ws[i]))
  }

  lemma LastsOfConcat(a: seq<Path>, b: seq<Path>)
    ensures Lasts(a + b) == Lasts(a) + Lasts(b)
  {
  }

  /** The blocks the walk lists below `l`. */
  ghost function Listing(blocks: Blocks, childrenMap: Children, l: seq<Id>, p: Path): seq<Id> {
    Lasts(Walks(blocks, childrenMap, l, p))
  }

  /** A block is listed before everything below it. */
  lemma ListingOfOne(blocks: Blocks, rootOrder: seq<Id>, childrenMap: Children, x: Id, p: Path)
    requires IsIndex(blocks, rootOrder, childrenMap) && Standing(blocks, p) && AreChildren(blocks, [x], p)
    ensures IsPath(blocks, p + [x]) && |p| < |blocks| && AreChildren(blocks, Kids(childrenMap, x), p + [x])
    ensures Listing(blocks, childrenMap, [x], p)
              == [x] + Listing(blocks, childrenMap, Kids(childrenMap, x), p + [x])
  {
    assert [x][0] == x;
    StepDown(blocks, rootOrder, childrenMap, p, x);
    var q := p + [x];
    var below := Walks(blocks, childrenMap, Kids(childrenMap, x), q);
    assert Walks(blocks, childrenMap, [x][1..], p) == [];
    assert Walks(blocks, childrenMap, [x], p) == [q] + below + [];
    assert [q] + below + [] == [q] + below;
    LastsOfConcat([q], below);
    assert Lasts([q]) == [Last(q)] == [x];
  }

  lemma {:induction false} WalksConcat(blocks: Blocks, childrenMap: Children, a: seq<Id>, b: seq<Id>, p: Path)
    ensures Walks(blocks, childrenMap, a + b, p) == Walks(blocks, childrenMap, a, p) + Walks(blocks, childrenMap, b, p)
    decreases |a|
  {
    if a == [] {
      assert a + b == b;
    } else {
      assert (a + b)[1..] == a[1..] + b;
      WalksConcat(blocks, childrenMap, a[1..], b, p);
    }
  }

  /** The listing of a list is made up of the listings of its parts. */
  lemma ListingConcat(blocks: Blocks, childrenMap: Children, a: seq<Id>, b: seq<Id>, p: Path)
    ensures Listing(blocks, childrenMap, a + b, p) == Listing(blocks, childrenMap, a, p) + Listing(blocks, childrenMap, b, p)
  {
    WalksConcat(blocks, childrenMap, a, b, p);
    LastsOfConcat(Walks(blocks, childrenMap, a, p), Walks(blocks, childrenMap, b, p));
  }

  lemma ListingNext(blocks: Blocks, childrenMap: Children, l: seq<Id>, i: nat, p: Path)
    requires i < |l|
    ensures Listing(blocks, childrenMap, l[..i + 1], p) ==
              Listing(blocks, childrenMap, l[..i], p) + Listing(blocks, childrenMap, [l[i]], p)
  {
    assert l[..i + 1] == l[..i] + [l[i]];
    ListingConcat(blocks, childrenMap, l[..i], [l[i]], p);
  }

  // ------------------------------------------------------------------ program

  /** The nested function `walk`; `p` is the path to the parent of `id`. */
  method Walk(blocks: Blocks, ghost rootOrder: seq<Id>, childrenMap: Children, id: Id, out: seq<Id>, ghost p: Path)
    returns (out': seq<Id>)
    requires IsIndex(blocks, rootOrder, childrenMap) && Standing(blocks, p) && AreChildren(blocks, [id], p)
    ensures out' == out + Listing(blocks, childrenMap, [id], p)
    decreases |blocks| - |p|, 0
  {
    ListingOfOne(blocks, rootOrder, childrenMap, id, p);
    ghost var q := p + [id];
    out' := out + [id];
    var kids := Kids(childrenMap, id);
    out' := WalkAll(blocks, rootOrder, childrenMap, kids, out', q);
  }

  /** The loop over a list of siblings. */
  method WalkAll(blocks: Blocks, ghost rootOrder: seq<Id>, childrenMap: Children, l: seq<Id>, out: seq<Id>, ghost p: Path)
    returns (out': seq<Id>)
    requires IsIndex(blocks, rootOrder, childrenMap) && Standing(blocks, p) && AreChildren(blocks, l, p)
    ensures out' == out + Listing(blocks, childrenMap, l, p)
    decreases |blocks| - |p|, 1
  {
    out' := out;
    for i := 0 to |l|
      invariant out' == out + Listing(blocks, childrenMap, l[..i], p)
    {
      ListingNext(blocks, childrenMap, l, i, p);
      out' := Walk(blocks, rootOrder, childrenMap, l[i], out', p);
    }
    assert l[..|l|] == l;
  }

  /** Lists all blocks the walk reaches from the roots. */
  method FlattenBlocks(rootOrder: seq<Id>, childrenMap: Children, blocks: Blocks) returns (out: seq<Id>)
    requires IsIndex(blocks, rootOrder, childrenMap)
    ensures IsTreeOrder(blocks, out)
  {
    WalksAreTreeOrder(blocks, rootOrder, childrenMap);
    out := WalkAll(blocks, rootOrder, childrenMap, rootOrder, [], []);
  }

  // --------------------------------------------------------------- properties

  /** Every walk is a path that goes through one of the listed blocks. */
  lemma {:induction false} WalksExtend(blocks: Blocks, rootOrder: seq<Id>, childrenMap: Children, l: seq<Id>, p: Path)
    requires IsIndex(blocks, rootOrder, childrenMap) && Standing(blocks, p) && AreChildren(blocks, l, p)
    ensures forall w :: w in Walks(blocks, childrenMap, l, p) ==>
              && IsPath(blocks, w) && |w| > |p| && w[..|p|] == p && w[|p|] in l
    decreases |blocks| - |p|, |l|
  {
    if l != [] {
      StepDown(blocks, rootOrder, childrenMap, p, l[0]);
      var q := p + [l[0]];
      WalksExtend(blocks, rootOrder, childrenMap, Kids(childrenMap, l[0]), q);
      WalksExtend(blocks, rootOrder, childrenMap, l[1..], p);
      forall w | w in Walks(blocks, childrenMap, Kids(childrenMap, l[0]), q)
        ensures w[..|p|] == p && w[|p|] in l
      {
        assert w[..|p|] == w[..|q|][..|p|] && w[|p|] == w[..|q|][|p|];
      }
    }
  }

  /** Every path through a listed block is walked. */
  lemma {:induction false} WalksComplete(blocks: Blocks, rootOrder: seq<Id>, childrenMap: Children, l: seq<Id>, p: Path, w: Path)
    requires IsIndex(blocks, rootOrder, childrenMap) && Standing(blocks, p) && AreChildren(blocks, l, p)
    requires IsPath(blocks, w) && |w| > |p| && w[..|p|] == p && w[|p|] in l
    ensures w in Walks(blocks, childrenMap, l, p)
    decreases |blocks| - |p|, |l|
  {
    StepDown(blocks, rootOrder, childrenMap, p, l[0]);
    var q := p + [l[0]];
    if w[|p|] == l[0] {
      assert w[..|q|] == q;
      if |w| > |q| {
        EntryLists(blocks, rootOrder, childrenMap, Some(l[0]));
        WalksComplete(blocks, rootOrder, childrenMap, Kids(childrenMap, l[0]), q, w);
      } else {
        assert w == q;
      }
    } else {
      WalksComplete(blocks, rootOrder, childrenMap, l[1..], p, w);
    }
  }

  ghost predicate ListedBefore(l: seq<Id>, x: Id, y: Id) {
    exists m, n :: 0 <= m < n < |l| && l[m] == x && l[n] == y
  }

  /** The paths agree below `k` and part there, `a` towards an earlier sibling. */
  ghost predicate PartsAt(rootOrder: seq<Id>, childrenMap: Children, a: Path, b: Path, k: nat) {
    && k < |a| && k < |b| && a[..k] == b[..k]
    && ListedBefore(EntryFor(rootOrder, childrenMap, ParentAt(a[..k])), a[k], b[k])
  }

  /** Preorder on paths: an ancestor comes first, and otherwise the earlier sibling decides. */
  ghost predicate ComesBefore(rootOrder: seq<Id>, childrenMap: Children, a: Path, b: Path) {
    || (|a| < |b| && a == b[..|a|])
    || exists k: nat :: PartsAt(rootOrder, childrenMap, a, b, k)
  }

  ghost predicate IsSuffix(l: seq<Id>, full: seq<Id>) {
    |l| <= |full| && l == full[|full| - |l|..]
  }

  /** The walk stands at `p` and has `l` left of the list of children there. */
  ghost predicate Walking(blocks: Blocks, rootOrder: seq<Id>, childrenMap: Children, l: seq<Id>, p: Path) {
    && IsIndex(blocks, rootOrder, childrenMap) && Standing(blocks, p) && AreChildren(blocks, l, p)
    && IsSuffix(l, EntryFor(rootOrder, childrenMap, ParentAt(p)))
  }

  lemma WalkingOn(blocks: Blocks, rootOrder: seq<Id>, childrenMap: Children, l: seq<Id>, p: Path)
    requires Walking(blocks, rootOrder, childrenMap, l, p) && l != []
    ensures Walking(blocks, rootOrder, childrenMap, Kids(childrenMap, l[0]), p + [l[0]]) && |p| < |blocks|
    ensures Walking(blocks, rootOrder, childrenMap, l[1..], p)
  {
    StepDown(blocks, rootOrder, childrenMap, p, l[0]);
    KidsAreEntry(rootOrder, childrenMap, p, l[0]);
    SuffixRest(l, EntryFor(rootOrder, childrenMap, ParentAt(p)));
  }

  lemma {:induction false} WalksInOrder(blocks: Blocks, rootOrder: seq<Id>, childrenMap: Children, l: seq<Id>, p: Path)
    requires Walking(blocks, rootOrder, childrenMap, l, p)
    ensures InOrder(rootOrder, childrenMap, Walks(blocks, childrenMap, l, p))
    decreases |blocks| - |p|, |l|
  {
    if l != [] {
      WalkingOn(blocks, rootOrder, childrenMap, l, p);
      WalksInOrder(blocks, rootOrder, childrenMap, Kids(childrenMap, l[0]), p + [l[0]]);
      WalksInOrder(blocks, rootOrder, childrenMap, l[1..], p);
      PartsInOrder(blocks, rootOrder, childrenMap, l, p);
    }
  }

  lemma PartsInOrder(blocks: Blocks, rootOrder: seq<Id>, childrenMap: Children, l: seq<Id>, p: Path)
    requires Walking(blocks, rootOrder, childrenMap, l, p) && l != []
    requires InOrder(rootOrder, childrenMap, Walks(blocks, childrenMap, Kids(childrenMap, l[0]), p + [l[0]]))
    requires InOrder(rootOrder, childrenMap, Walks(blocks, childrenMap, l[1..], p))
    ensures InOrder(rootOrder, childrenMap, Walks(blocks, childrenMap, l, p))
  {
    var q := p + [l[0]];
    var kids := Kids(childrenMap, l[0]);
    var below := Walks(blocks, childrenMap, kids, q);
    var others := Walks(blocks, childrenMap, l[1..], p);
    assert forall w :: w in below ==> |w| > |q| && w[..|q|] == q by {
      StepDown(blocks, rootOrder, childrenMap, p, l[0]);
      WalksExtend(blocks, rootOrder, childrenMap, kids, q);
    }
    assert forall w :: w in others ==> |w| > |p| && w[..|p|] == p && w[|p|] in l[1..] by {
      WalksExtend(blocks, rootOrder, childrenMap, l[1..], p);
    }
    OrderedTogether(rootOrder, childrenMap, l, p, below, others);
  }

  lemma KidsAreEntry(rootOrder: seq<Id>, childrenMap: Children, p: Path, x: Id)
    ensures IsSuffix(Kids(childrenMap, x), EntryFor(rootOrder, childrenMap, ParentAt(p + [x])))
  {
    assert ParentAt(p + [x]) == Some(x);
  }

  lemma SuffixRest(l: seq<Id>, full: seq<Id>)
    requires l != [] && IsSuffix(l, full)
    ensures IsSuffix(l[1..], full)
  {
  }

  ghost predicate InOrder(rootOrder: seq<Id>, childrenMap: Children, ws: seq<Path>) {
    forall i, j :: 0 <= i < j < |ws| ==> ComesBefore(rootOrder, childrenMap, ws[i], ws[j])
  }

  lemma InOrderConcat(rootOrder: seq<Id>, childrenMap: Children, a: seq<Path>, b: seq<Path>)
    requires InOrder(rootOrder, childrenMap, a) && InOrder(rootOrder, childrenMap, b)
    requires forall v, w :: v in a && w in b ==> ComesBefore(rootOrder, childrenMap, v, w)
    ensures InOrder(rootOrder, childrenMap, a + b)
  {
    var ws := a + b;
    forall i, j | 0 <= i < j < |ws|
      ensures ComesBefore(rootOrder, childrenMap, ws[i], ws[j])
    {
      if i < |a| <= j {
        assert ws[i] in a && ws[j] in b;
      } else if j < |a| {
        assert ws[i] == a[i] && ws[j] == a[j];
      } else {
        assert ws[i] == b[i - |a|] && ws[j] == b[j - |a|];
      }
    }
  }

  lemma OrderedTogether(rootOrder: seq<Id>, childrenMap: Children, l: seq<Id>, p: Path, below: seq<Path>, others: seq<Path>)
    requires l != [] && IsSuffix(l, EntryFor(rootOrder, childrenMap, ParentAt(p)))
    requires InOrder(rootOrder, childrenMap, below) && InOrder(rootOrder, childrenMap, others)
    requires forall w :: w in below ==> |w| > |p| + 1 && w[..|p| + 1] == p + [l[0]]
    requires forall w :: w in others ==> |w| > |p| && w[..|p|] == p && w[|p|] in l[1..]
    ensures InOrder(rootOrder, childrenMap, [p + [l[0]]] + below + others)
  {
    var q := p + [l[0]];
    InOrderConcat(rootOrder, childrenMap, [q], below);
    forall v, w | v in [q] + below && w in others
      ensures ComesBefore(rootOrder, childrenMap, v, w)
    {
      assert v == q || v in below;
      PartAtSibling(rootOrder, childrenMap, l, p, v, w);
    }
    InOrderConcat(rootOrder, childrenMap, [q] + below, others);
  }

  lemma PartAtSibling(rootOrder: seq<Id>, childrenMap: Children, l: seq<Id>, p: Path, a: Path, b: Path)
    requires l != [] && IsSuffix(l, EntryFor(rootOrder, childrenMap, ParentAt(p)))
    requires |a| > |p| && a[..|p| + 1] == p + [l[0]]
    requires |b| > |p| && b[..|p|] == p && b[|p|] in l[1..]
    ensures ComesBefore(rootOrder, childrenMap, a, b)
  {
    assert a[..|p|] == a[..|p| + 1][..|p|] == p;
    assert a[|p|] == a[..|p| + 1][|p|] == l[0];
    HeadListedBefore(l, EntryFor(rootOrder, childrenMap, ParentAt(p)), b[|p|]);
    assert PartsAt(rootOrder, childrenMap, a, b, |p|);
  }

  lemma HeadListedBefore(l: seq<Id>, full: seq<Id>, y: Id)
    requires l != [] && IsSuffix(l, full) && y in l[1..]
    ensures ListedBefore(full, l[0], y)
  {
    var n :| 0 <= n < |l[1..]| && l[1..][n] == y;
    var m := |full| - |l|;
    assert full[m] == l[0] && full[m + 1 + n] == y;
  }

  lemma NotListedTwice(l: seq<Id>, x: Id, y: Id)
    requires NoDuplicates(l) && ListedBefore(l, x, y)
    ensures x != y && !ListedBefore(l, y, x)
  {
  }

  /** A path is never before one of its own prefixes. */
  lemma ComesBeforeIsStrict(blocks: Blocks, rootOrder: seq<Id>, childrenMap: Children, a: Path, b: Path)
    requires IsIndex(blocks, rootOrder, childrenMap)
    requires ComesBefore(rootOrder, childrenMap, a, b)
    ensures a != b && !(|b| < |a| && b == a[..|b|])
  {
    if k: nat :| PartsAt(rootOrder, childrenMap, a, b, k) {
      var entry := EntryFor(rootOrder, childrenMap, ParentAt(a[..k]));
      EntryLists(blocks, rootOrder, childrenMap, ParentAt(a[..k]));
      NotListedTwice(entry, a[k], b[k]);
    }
  }

  /** Two paths part in one place only, and only one way. */
  lemma PartsOnce(blocks: Blocks, rootOrder: seq<Id>, childrenMap: Children, a: Path, b: Path, c: Path, k: nat, m: nat)
    requires IsIndex(blocks, rootOrder, childrenMap)
    requires PartsAt(rootOrder, childrenMap, a, b, k) && PartsAt(rootOrder, childrenMap, b, c, m)
    requires k < |c|
    ensures !(a[..k] == c[..k] && a[k] == c[k])
  {
    EntryLists(blocks, rootOrder, childrenMap, ParentAt(a[..k]));
    NotListedTwice(EntryFor(rootOrder, childrenMap, ParentAt(a[..k])), a[k], b[k]);
    EntryLists(blocks, rootOrder, childrenMap, ParentAt(b[..m]));
    NotListedTwice(EntryFor(rootOrder, childrenMap, ParentAt(b[..m])), b[m], c[m]);
    if m < k {
      assert b[m] == b[..k][m] && c[m] == c[..k][m];
    } else if k < m {
      assert b[k] == b[..m][k] && c[k] == c[..m][k];
    }
  }

  /** Whatever lies between a path and one of its extensions is itself an extension of that path. */
  lemma PrefixesAreConvex(blocks: Blocks, rootOrder: seq<Id>, childrenMap: Children, a: Path, b: Path, c: Path)
    requires IsIndex(blocks, rootOrder, childrenMap)
    requires |a| <= |c| && a == c[..|a|]
    requires ComesBefore(rootOrder, childrenMap, a, b) && ComesBefore(rootOrder, childrenMap, b, c)
    ensures |a| <= |b| && a == b[..|a|]
  {
    if k: nat :| PartsAt(rootOrder, childrenMap, a, b, k) {
      assert a[..k] == c[..|a|][..k] == c[..k] && a[k] == c[..|a|][k] == c[k];
      EntryLists(blocks, rootOrder, childrenMap, ParentAt(a[..k]));
      NotListedTwice(EntryFor(rootOrder, childrenMap, ParentAt(a[..k])), a[k], b[k]);
      assert !(|b| < |c| && b == c[..|b|]) by {
        assert |b| <= |c| ==> c[..|b|][k] == c[k];
      }
      var m: nat :| PartsAt(rootOrder, childrenMap, b, c, m);
      PartsOnce(blocks, rootOrder, childrenMap, a, b, c, k, m);
    }
  }

  /**
   * The listing `out` of a block map: exactly the rooted blocks, each once, ancestors
   * first, every subtree contiguous and siblings in position order.
   */
  ghost predicate IsTreeOrder(blocks: Blocks, out: seq<Id>) {
    var ps := ParentPointers(blocks);
    && Present(blocks, out)
    && (forall x :: x in out <==> Rooted(ps, x))
    && NoDuplicates(out)
    && (forall i, j :: 0 <= i < j < |out| ==> !Under(ps, out[i], out[j]))
    && (forall i, m, j :: 0 <= i < m < j < |out| && Under(ps, out[j], out[i]) ==> Under(ps, out[m], out[i]))
    && (forall i, j :: 0 <= i < j < |out| && blocks[out[i]].parent == blocks[out[j]].parent ==>
          Le(blocks[out[i]].position, blocks[out[j]].position))
  }

  lemma {:induction false} PathToRooted(blocks: Blocks, x: Id, n: nat) returns (p: Path)
    requires AtDepth(ParentPointers(blocks), x, n)
    ensures IsPath(blocks, p) && Last(p) == x
    decreases n
  {
    if n == 0 {
      p := [x];
    } else {
      p := PathToRooted(blocks, blocks[x].parent.value, n - 1);
      p := p + [x];
    }
  }

  lemma {:induction false} PathIsRooted(blocks: Blocks, p: Path)
    requires IsPath(blocks, p)
    ensures AtDepth(ParentPointers(blocks), Last(p), |p| - 1)
    decreases |p|
  {
    if |p| > 1 {
      PathIsRooted(blocks, p[..|p| - 1]);
    }
  }

  /** Being under a block means that its path is a prefix. */
  lemma {:induction false} ClimbIsPrefix(blocks: Blocks, w: Path, v: Path, k: nat)
    requires IsPath(blocks, w) && IsPath(blocks, v) && Climbs(ParentPointers(blocks), Last(w), Last(v), k)
    ensures |v| <= |w| && v == w[..|v|]
    decreases k
  {
    if k == 0 {
      PathUnique(blocks, w, v);
    } else {
      ClimbIsPrefix(blocks, w[..|w| - 1], v, k - 1);
    }
  }

  lemma {:induction false} PrefixIsUnder(blocks: Blocks, w: Path, v: Path)
    requires IsPath(blocks, w) && IsPath(blocks, v) && |v| <= |w| && v == w[..|v|]
    ensures Under(ParentPointers(blocks), Last(w), Last(v))
    decreases |w|
  {
    if |v| == |w| {
      UnderSelf(ParentPointers(blocks), Last(w));
    } else {
      assert w[..|w| - 1][..|v|] == w[..|v|];
      PrefixIsUnder(blocks, w[..|w| - 1], v);
      UnderParent(ParentPointers(blocks), Last(w), Last(v));
    }
  }

  lemma WalksAreTreeOrder(blocks: Blocks, rootOrder: seq<Id>, childrenMap: Children)
    requires IsIndex(blocks, rootOrder, childrenMap)
    ensures AreChildren(blocks, rootOrder, [])
    ensures IsTreeOrder(blocks, Listing(blocks, childrenMap, rootOrder, []))
  {
    var ws := Walks(blocks, childrenMap, rootOrder, []);
    WalksExtend(blocks, rootOrder, childrenMap, rootOrder, []);
    WalksInOrder(blocks, rootOrder, childrenMap, rootOrder, []);
    forall x
      ensures x in Lasts(ws) <==> Rooted(ParentPointers(blocks), x)
    {
      WalksReachRooted(blocks, rootOrder, childrenMap, x);
    }
    forall i | 0 <= i < |ws|
      ensures IsPath(blocks, ws[i])
    {
      assert ws[i] in ws;
    }
    OrderedPathsAreTreeOrder(blocks, rootOrder, childrenMap, ws);
  }

  lemma OrderedPathsAreTreeOrder(blocks: Blocks, rootOrder: seq<Id>, childrenMap: Children, ws: seq<Path>)
    requires IsIndex(blocks, rootOrder, childrenMap) && InOrder(rootOrder, childrenMap, ws)
    requires forall i :: 0 <= i < |ws| ==> IsPath(blocks, ws[i])
    requires forall x :: x in Lasts(ws) <==> Rooted(ParentPointers(blocks), x)
    ensures IsTreeOrder(blocks, Lasts(ws))
  {
    var ps := ParentPointers(blocks);
    var out := Lasts(ws);
    assert forall i :: 0 <= i < |ws| ==> out[i] == Last(ws[i]) && out[i] in blocks;
    forall i, j | 0 <= i < j < |out|
      ensures out[i] != out[j] && !Under(ps, out[i], out[j])
      ensures blocks[out[i]].parent == blocks[out[j]].parent ==> Le(blocks[out[i]].position, blocks[out[j]].position)
    {
      NotUnderEarlier(blocks, rootOrder, childrenMap, ws[i], ws[j]);
      if blocks[out[i]].parent == blocks[out[j]].parent {
        SiblingsInOrder(blocks, rootOrder, childrenMap, ws[i], ws[j]);
      }
    }
    forall i, m, j | 0 <= i < m < j < |out| && Under(ps, out[j], out[i])
      ensures Under(ps, out[m], out[i])
    {
      UnderIsPrefix(blocks, ws[j], ws[i]);
      PrefixesAreConvex(blocks, rootOrder, childrenMap, ws[i], ws[m], ws[j]);
      PrefixIsUnder(blocks, ws[m], ws[i]);
    }
  }

  lemma UnderIsPrefix(blocks: Blocks, w: Path, v: Path)
    requires IsPath(blocks, w) && IsPath(blocks, v) && Under(ParentPointers(blocks), Last(w), Last(v))
    ensures |v| <= |w| && v == w[..|v|]
  {
    var k: nat :| Climbs(ParentPointers(blocks), Last(w), Last(v), k);
    ClimbIsPrefix(blocks, w, v, k);
  }

  /** The block listed later is a different one and no ancestor of the earlier one. */
  lemma NotUnderEarlier(blocks: Blocks, rootOrder: seq<Id>, childrenMap: Children, a: Path, b: Path)
    requires IsIndex(blocks, rootOrder, childrenMap) && IsPath(blocks, a) && IsPath(blocks, b)
    requires ComesBefore(rootOrder, childrenMap, a, b)
    ensures Last(a) != Last(b) && !Under(ParentPointers(blocks), Last(a), Last(b))
  {
    ComesBeforeIsStrict(blocks, rootOrder, childrenMap, a, b);
    assert a[..|a|] == a;
    if Last(a) == Last(b) {
      PathUnique(blocks, a, b);
    }
    if Under(ParentPointers(blocks), Last(a), Last(b)) {
      UnderIsPrefix(blocks, a, b);
    }
  }

  lemma WalksReachRooted(blocks: Blocks, rootOrder: seq<Id>, childrenMap: Children, x: Id)
    requires IsIndex(blocks, rootOrder, childrenMap)
    ensures AreChildren(blocks, rootOrder, [])
    ensures x in Listing(blocks, childrenMap, rootOrder, []) <==> Rooted(ParentPointers(blocks), x)
  {
    var ws := Walks(blocks, childrenMap, rootOrder, []);
    WalksExtend(blocks, rootOrder, childrenMap, rootOrder, []);
    if x in Lasts(ws) {
      var i :| 0 <= i < |ws| && Lasts(ws)[i] == x;
      assert ws[i] in ws;
      PathIsRooted(blocks, ws[i]);
    }
    if n: nat :| AtDepth(ParentPointers(blocks), x, n) {
      var w := PathToRooted(blocks, x, n);
      WalksComplete(blocks, rootOrder, childrenMap, rootOrder, [], w);
      var i :| 0 <= i < |ws| && ws[i] == w;
      assert Lasts(ws)[i] == x;
    }
  }

  lemma SiblingPaths(blocks: Blocks, a: Path, b: Path)
    requires IsPath(blocks, a) && IsPath(blocks, b) && blocks[Last(a)].parent == blocks[Last(b)].parent
    ensures |a| == |b| && a[..|a| - 1] == b[..|b| - 1]
  {
    assert |a| > 1 ==> blocks[Last(a)].parent == Some(a[|a| - 2]);
    assert |b| > 1 ==> blocks[Last(b)].parent == Some(b[|b| - 2]);
    if |a| > 1 && |b| > 1 {
      PathUnique(blocks, a[..|a| - 1], b[..|b| - 1]);
    }
  }

  lemma ListedBeforeIsLe(blocks: Blocks, p: Option<Id>, l: seq<Id>, x: Id, y: Id)
    requires ListsChildren(blocks, p, l) && ListedBefore(l, x, y)
    ensures x in blocks && y in blocks && Le(blocks[x].position, blocks[y].position)
  {
  }

  lemma SameBelow(a: Path, b: Path, n: nat, k: nat)
    requires k < n <= |a| && n <= |b| && a[..n] == b[..n]
    ensures a[k] == b[k]
  {
    assert a[..n][k] == b[..n][k];
  }

  /** Paths of siblings can part only in their last step. */
  lemma SiblingsPartLast(blocks: Blocks, rootOrder: seq<Id>, childrenMap: Children, a: Path, b: Path, k: nat)
    requires IsIndex(blocks, rootOrder, childrenMap) && IsPath(blocks, a) && IsPath(blocks, b)
    requires blocks[Last(a)].parent == blocks[Last(b)].parent
    requires PartsAt(rootOrder, childrenMap, a, b, k)
    ensures k == |a| - 1 == |b| - 1
  {
    SiblingPaths(blocks, a, b);
    EntryLists(blocks, rootOrder, childrenMap, ParentAt(a[..k]));
    NotListedTwice(EntryFor(rootOrder, childrenMap, ParentAt(a[..k])), a[k], b[k]);
    if k < |a| - 1 {
      SameBelow(a, b, |a| - 1, k);
    }
  }

  lemma SiblingsInOrder(blocks: Blocks, rootOrder: seq<Id>, childrenMap: Children, a: Path, b: Path)
    requires IsIndex(blocks, rootOrder, childrenMap) && IsPath(blocks, a) && IsPath(blocks, b)
    requires ComesBefore(rootOrder, childrenMap, a, b) && blocks[Last(a)].parent == blocks[Last(b)].parent
    ensures Le(blocks[Last(a)].position, blocks[Last(b)].position)
  {
    SiblingPaths(blocks, a, b);
    var k: nat :| PartsAt(rootOrder, childrenMap, a, b, k);
    SiblingsPartLast(blocks, rootOrder, childrenMap, a, b, k);
    EntryLists(blocks, rootOrder, childrenMap, ParentAt(a[..k]));
    ListedBeforeIsLe(blocks, ParentAt(a[..k]), EntryFor(rootOrder, childrenMap, ParentAt(a[..k])), a[k], b[k]);
  }
}
