/** The client's block map, its derived index and the tree-ordered listing (apps/web/src/store/block-store.ts). */
module BlockIndex {
  import opened Wrappers
  import opened Ranks
  import opened Forest
  import opened Wire

  datatype Block = Block(parent: Option<Id>, position: Rank, depth: nat, typ: string, content: Content, version: nat)
  type Blocks = map<Id, Block>
  type Children = map<Id, seq<Id>>

  function ParentPointers(blocks: Blocks): Parents {
    map x | x in blocks :: blocks[x].parent
  }

  predicate NoDuplicates(l: seq<Id>) {
    forall i, j :: 0 <= i < j < |l| ==> l[i] != l[j]
  }

  predicate Present(blocks: Blocks, l: seq<Id>) {
    forall i :: 0 <= i < |l| ==> l[i] in blocks
  }

  predicate Sorted(blocks: Blocks, l: seq<Id>)
    requires Present(blocks, l)
  {
    forall i, j :: 0 <= i < j < |l| ==> Le(blocks[l[i]].position, blocks[l[j]].position)
  }

  /** `l` lists exactly the children of `p`, each once, in position order. */
  ghost predicate ListsChildren(blocks: Blocks, p: Option<Id>, l: seq<Id>) {
    && NoDuplicates(l)
    && (forall x :: x in l <==> x in blocks && blocks[x].parent == p)
    && Present(blocks, l) && Sorted(blocks, l)
  }

  /** The derived index agrees with the block map and has no empty entries. */
  ghost predicate IsIndex(blocks: Blocks, rootOrder: seq<Id>, childrenMap: Children) {
    && ListsChildren(blocks, None, rootOrder)
    && (forall p :: p in childrenMap ==> childrenMap[p] != [] && ListsChildren(blocks, Some(p), childrenMap[p]))
    && (forall x :: x in blocks && blocks[x].parent.Some? ==> blocks[x].parent.value in childrenMap)
  }

  function Kids(childrenMap: Children, id: Id): seq<Id> {
    if id in childrenMap then childrenMap[id] else []
  }

  /** The index entry for the children of `p`. */
  function EntryFor(rootOrder: seq<Id>, childrenMap: Children, p: Option<Id>): seq<Id> {
    if p.None? then rootOrder else Kids(childrenMap, p.value)
  }

  lemma EntryLists(blocks: Blocks, rootOrder: seq<Id>, childrenMap: Children, p: Option<Id>)
    requires IsIndex(blocks, rootOrder, childrenMap)
    ensures ListsChildren(blocks, p, EntryFor(rootOrder, childrenMap, p))
  {
  }

  /** An index depends on parents and positions only. */
  lemma IndexIgnoresContent(blocks: Blocks, blocks': Blocks, rootOrder: seq<Id>, childrenMap: Children)
    requires IsIndex(blocks, rootOrder, childrenMap) && blocks'.Keys == blocks.Keys
    requires forall x :: x in blocks ==> blocks'[x].parent == blocks[x].parent && blocks'[x].position == blocks[x].position
    ensures IsIndex(blocks', rootOrder, childrenMap)
  {
    assert forall p, l :: ListsChildren(blocks, p, l) ==> ListsChildren(blocks', p, l);
  }

  // ------------------------------------------------------------------ sorting

  function InsertByPosition(blocks: Blocks, l: seq<Id>, x: Id): (r: seq<Id>)
    requires x in blocks && Present(blocks, l)
    ensures multiset(r) == multiset(l) + multiset{x}
    ensures Present(blocks, r)
  {
    if l == [] then [x]
    else if Lt(blocks[l[0]].position, blocks[x].position) then
      assert l == [l[0]] + l[1..];
      [l[0]] + InsertByPosition(blocks, l[1..], x)
    else [x] + l
  }

  lemma SortedCons(blocks: Blocks, x: Id, l: seq<Id>)
    requires x in blocks && Present(blocks, l) && Sorted(blocks, l)
    requires forall i :: 0 <= i < |l| ==> Le(blocks[x].position, blocks[l[i]].position)
    ensures Sorted(blocks, [x] + l)
  {
  }

  lemma {:induction false} InsertKeepsSorted(blocks: Blocks, l: seq<Id>, x: Id)
    requires x in blocks && Present(blocks, l) && Sorted(blocks, l)
    ensures Sorted(blocks, InsertByPosition(blocks, l, x))
  {
    if l != [] {
      var h := blocks[l[0]].position;
      if Lt(h, blocks[x].position) {
        var t := InsertByPosition(blocks, l[1..], x);
        InsertKeepsSorted(blocks, l[1..], x);
        forall i | 0 <= i < |t|
          ensures Le(h, blocks[t[i]].position)
        {
          assert t[i] in multiset(t);
          assert t[i] in l[1..] || t[i] == x;
        }
        SortedCons(blocks, l[0], t);
      } else {
        NotLtIsGe(h, blocks[x].position);
        forall i | 0 <= i < |l|
          ensures Le(blocks[x].position, blocks[l[i]].position)
        {
          if i > 0 && blocks[x].position != h {
            LeLtTransitive(blocks[x].position, h, blocks[l[i]].position);
          }
        }
        SortedCons(blocks, x, l);
      }
    }
  }

  /** Array.sort with the comparison by position. */
  function SortByPosition(blocks: Blocks, l: seq<Id>): (r: seq<Id>)
    requires Present(blocks, l)
    ensures multiset(r) == multiset(l)
    ensures Present(blocks, r) && Sorted(blocks, r)
  {
    if l == [] then []
    else
      var t := SortByPosition(blocks, l[1..]);
      assert l == [l[0]] + l[1..];
      InsertKeepsSorted(blocks, t, l[0]);
      InsertByPosition(blocks, t, l[0])
  }

  /** The ids of `l` at position `q`, in their order. */
  function AtPosition(blocks: Blocks, l: seq<Id>, q: Rank): seq<Id>
    requires Present(blocks, l)
  {
    if l == [] then [] else (if blocks[l[0]].position == q then [l[0]] else []) + AtPosition(blocks, l[1..], q)
  }

  lemma AtPositionCons(blocks: Blocks, x: Id, l: seq<Id>, q: Rank)
    requires x in blocks && Present(blocks, l)
    ensures AtPosition(blocks, [x] + l, q) ==
              if blocks[x].position == q then [x] + AtPosition(blocks, l, q) else AtPosition(blocks, l, q)
  {
    assert ([x] + l)[1..] == l;
  }

  lemma {:induction false} InsertIsStable(blocks: Blocks, l: seq<Id>, x: Id, q: Rank)
    requires x in blocks && Present(blocks, l)
    ensures AtPosition(blocks, InsertByPosition(blocks, l, x), q) == AtPosition(blocks, [x] + l, q)
  {
    if l == [] {
      assert [x] + l == [x];
    } else if Lt(blocks[l[0]].position, blocks[x].position) {
      LtIrreflexive(blocks[x].position);
      InsertIsStable(blocks, l[1..], x, q);
      SwapsApart(blocks, l[0], x, l[1..], InsertByPosition(blocks, l[1..], x), q);
      assert l == [l[0]] + l[1..];
    }
  }

  /** Two blocks at different positions may change places. */
  lemma SwapsApart(blocks: Blocks, y: Id, x: Id, l: seq<Id>, r: seq<Id>, q: Rank)
    requires x in blocks && y in blocks && Present(blocks, l) && Present(blocks, r) && blocks[x].position != blocks[y].position
    requires AtPosition(blocks, r, q) == AtPosition(blocks, [x] + l, q)
    ensures AtPosition(blocks, [y] + r, q) == AtPosition(blocks, [x] + ([y] + l), q)
  {
    AtPositionCons(blocks, y, r, q);
    AtPositionCons(blocks, x, l, q);
    AtPositionCons(blocks, y, l, q);
    AtPositionCons(blocks, x, [y] + l, q);
  }

  /** Blocks with equal positions stay in the order they came in. */
  lemma {:induction false} SortIsStable(blocks: Blocks, l: seq<Id>, q: Rank)
    requires Present(blocks, l)
    ensures AtPosition(blocks, SortByPosition(blocks, l), q) == AtPosition(blocks, l, q)
  {
    if l != [] {
      var t := SortByPosition(blocks, l[1..]);
      SortIsStable(blocks, l[1..], q);
      InsertIsStable(blocks, t, l[0], q);
      AtPositionCons(blocks, l[0], t, q);
    }
  }

  lemma {:induction false} NoDuplicatesByMultiset(l: seq<Id>)
    ensures NoDuplicates(l) <==> forall x :: x in l ==> multiset(l)[x] == 1
  {
    if l != [] {
      var t, last := l[..|l| - 1], l[|l| - 1];
      NoDuplicatesByMultiset(t);
      assert l == t + [last];
      assert multiset(l) == multiset(t) + multiset{last};
      assert forall x :: x in l <==> x in t || x == last;
      assert last in t <==> multiset(t)[last] > 0;
    }
  }

  lemma SortedPermutation(blocks: Blocks, p: Option<Id>, l: seq<Id>)
    requires NoDuplicates(l) && forall x :: x in l <==> x in blocks && blocks[x].parent == p
    ensures Present(blocks, l) && ListsChildren(blocks, p, SortByPosition(blocks, l))
  {
    var r := SortByPosition(blocks, l);
    NoDuplicatesByMultiset(l);
    NoDuplicatesByMultiset(r);
    assert forall x :: x in r <==> x in multiset(r);
    assert forall x :: x in l <==> x in multiset(l);
  }

  /** The grouping of the blocks visited so far. */
  ghost predicate Grouped(blocks: Blocks, visited: set<Id>, rootOrder: seq<Id>, childrenMap: Children) {
    && NoDuplicates(rootOrder)
    && (forall x :: x in rootOrder <==> x in blocks && x in visited && blocks[x].parent.None?)
    && (forall p :: p in childrenMap ==>
          && childrenMap[p] != [] && NoDuplicates(childrenMap[p])
          && forall x :: x in childrenMap[p] <==> x in blocks && x in visited && blocks[x].parent == Some(p))
    && (forall x :: x in blocks && x in visited && blocks[x].parent.Some? ==> blocks[x].parent.value in childrenMap)
  }

  lemma GroupedRoot(blocks: Blocks, visited: set<Id>, rootOrder: seq<Id>, childrenMap: Children, x: Id)
    requires Grouped(blocks, visited, rootOrder, childrenMap)
    requires x in blocks && x !in visited && blocks[x].parent.None?
    ensures Grouped(blocks, visited + {x}, rootOrder + [x], childrenMap)
  {
  }

  lemma GroupedChild(blocks: Blocks, visited: set<Id>, rootOrder: seq<Id>, childrenMap: Children, x: Id)
    requires Grouped(blocks, visited, rootOrder, childrenMap)
    requires x in blocks && x !in visited && blocks[x].parent.Some?
    ensures var p := blocks[x].parent.value;
            Grouped(blocks, visited + {x}, rootOrder, childrenMap[p := Kids(childrenMap, p) + [x]])
  {
    var p := blocks[x].parent.value;
    var arr := Kids(childrenMap, p);
    assert x !in arr;
    assert NoDuplicates(arr + [x]);
  }

  /** A sorted group for `p`. */
  ghost predicate FinalEntry(blocks: Blocks, p: Id, l: seq<Id>) {
    l != [] && ListsChildren(blocks, Some(p), l)
  }

  /** Groups the ids by parent, visiting the map in any order, and sorts every group. */
  method RebuildIndex(blocks: Blocks) returns (rootOrder: seq<Id>, childrenMap: Children)
    ensures IsIndex(blocks, rootOrder, childrenMap)
  {
    rootOrder, childrenMap := [], map[];
    var todo := blocks.Keys;
    while todo != {}
      invariant todo <= blocks.Keys
      invariant Grouped(blocks, blocks.Keys - todo, rootOrder, childrenMap)
    {
      var x :| x in todo;
      assert blocks.Keys - (todo - {x}) == blocks.Keys - todo + {x};
      if blocks[x].parent.None? {
        GroupedRoot(blocks, blocks.Keys - todo, rootOrder, childrenMap, x);
        rootOrder := rootOrder + [x];
      } else {
        var p := blocks[x].parent.value;
        GroupedChild(blocks, blocks.Keys - todo, rootOrder, childrenMap, x);
        var arr := Kids(childrenMap, p);
        childrenMap := childrenMap[p := arr + [x]];
      }
      todo := todo - {x};
    }
    assert blocks.Keys - todo == blocks.Keys;
    SortedPermutation(blocks, None, rootOrder);
    rootOrder := SortByPosition(blocks, rootOrder);
    childrenMap := SortEntries(blocks, childrenMap, rootOrder);
  }

  /** Sorts the list of every parent in place of the unsorted one. */
  method SortEntries(blocks: Blocks, groups: Children, ghost rootOrder: seq<Id>) returns (childrenMap: Children)
    requires Present(blocks, rootOrder) && ListsChildren(blocks, None, rootOrder)
    requires exists unsorted :: Grouped(blocks, blocks.Keys, unsorted, groups)
    ensures IsIndex(blocks, rootOrder, childrenMap)
  {
    childrenMap := groups;
    var keys := groups.Keys;
    while keys != {}
      invariant keys <= groups.Keys == childrenMap.Keys
      invariant forall p :: p in keys ==> childrenMap[p] == groups[p]
      invariant forall p :: p in groups.Keys - keys ==> FinalEntry(blocks, p, childrenMap[p])
    {
      var k :| k in keys;
      SortedPermutation(blocks, Some(k), groups[k]);
      var sorted := SortByPosition(blocks, childrenMap[k]);
      assert sorted != [] by {
        assert |multiset(sorted)| == |multiset(groups[k])|;
      }
      childrenMap := childrenMap[k := sorted];
      keys := keys - {k};
    }
  }
}
