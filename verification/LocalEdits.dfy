/** Where local inserts and moves put a block, over every run of local edits. */
module LocalEdits {
  import opened Wrappers
  import opened Ranks
  import opened Forest
  import opened Placement
  import opened BlockIndex
  import opened BlockStore
  import ClientRanks

  function PositionsUnder(blocks: Blocks, p: Option<Id>): Positions {
    map x | x in blocks && blocks[x].parent == p :: blocks[x].position
  }

  /** All positions are a..z, non-empty and not ending in 'a', and siblings have different ones. */
  ghost predicate Usable(blocks: Blocks) {
    && (forall x :: x in blocks ==> ClientRanks.Proper(blocks[x].position))
    && (forall p :: Distinct(PositionsUnder(blocks, p)))
  }

  /** No position is longer than 41 characters. */
  ghost predicate Short(blocks: Blocks) {
    forall x :: x in blocks ==> |blocks[x].position| <= ClientRanks.LAST_INDEX + 1
  }

  lemma StrictlySorted(blocks: Blocks, p: Option<Id>, l: seq<Id>)
    requires Distinct(PositionsUnder(blocks, p)) && ListsChildren(blocks, p, l)
    ensures forall i, j :: 0 <= i < j < |l| ==> Lt(blocks[l[i]].position, blocks[l[j]].position)
  {
    var ps := PositionsUnder(blocks, p);
    forall i, j | 0 <= i < j < |l|
      ensures Lt(blocks[l[i]].position, blocks[l[j]].position)
    {
      assert l[i] in l && l[j] in l;
      assert l[i] in ps && l[j] in ps && l[i] != l[j];
      assert ps[l[i]] != ps[l[j]];
    }
  }

  /** How a computed position `q` compares with the siblings `l`. */
  ghost predicate Fits(blocks: Blocks, l: seq<Id>, after: Option<Id>, q: Rank)
    requires Present(blocks, l)
  {
    forall s :: s in l ==>
      && blocks[s].position != q
      && (if after.None? then Lt(q, blocks[s].position)
          else if after.value in l then Lt(blocks[s].position, q) <==> Le(blocks[s].position, blocks[after.value].position)
          else Lt(blocks[s].position, q))
  }

  /** The number of siblings the new position goes behind. */
  function Behind(l: seq<Id>, after: Option<Id>): nat {
    if after.None? then 0 else if after.value in l then IndexOf(l, after.value) + 1 else |l|
  }

  lemma NeighboursAreNext(blocks: Blocks, l: seq<Id>, after: Option<Id>)
    requires Present(blocks, l)
    ensures var n := Behind(l, after);
            && n <= |l|
            && Neighbours(blocks, l, after) ==
                 (if n > 0 then Some(blocks[l[n - 1]].position) else None, if n < |l| then Some(blocks[l[n]].position) else None)
  {
  }

  /** The new position lies between the siblings it goes behind and the others. */
  lemma PositionBetween(blocks: Blocks, p: Option<Id>, l: seq<Id>, after: Option<Id>)
    requires Usable(blocks) && Short(blocks) && ListsChildren(blocks, p, l)
    ensures var q, n := PositionAmong(blocks, l, after), Behind(l, after);
            && ClientRanks.Proper(q) && n <= |l|
            && (n > 0 ==> Lt(blocks[l[n - 1]].position, q)) && (n < |l| ==> Lt(q, blocks[l[n]].position))
  {
    StrictlySorted(blocks, p, l);
    NeighboursAreNext(blocks, l, after);
    var n := Behind(l, after);
    assert 0 < n < |l| ==> Lt(blocks[l[n - 1]].position, blocks[l[n]].position);
    var (prev, next) := Neighbours(blocks, l, after);
    ClientRanks.MidpointTotallyCorrect(prev, next);
  }

  lemma PositionSplits(blocks: Blocks, p: Option<Id>, l: seq<Id>, after: Option<Id>)
    requires Usable(blocks) && Short(blocks) && ListsChildren(blocks, p, l)
    ensures var q, n := PositionAmong(blocks, l, after), Behind(l, after);
            && ClientRanks.Proper(q) && n <= |l|
            && forall i :: 0 <= i < |l| ==> if i < n then Lt(blocks[l[i]].position, q) else Lt(q, blocks[l[i]].position)
  {
    StrictlySorted(blocks, p, l);
    PositionBetween(blocks, p, l, after);
    SplitsAround(blocks, l, PositionAmong(blocks, l, after), Behind(l, after));
  }

  lemma SplitsAround(blocks: Blocks, l: seq<Id>, q: Rank, n: nat)
    requires Present(blocks, l) && n <= |l|
    requires forall i, j :: 0 <= i < j < |l| ==> Lt(blocks[l[i]].position, blocks[l[j]].position)
    requires (n > 0 ==> Lt(blocks[l[n - 1]].position, q)) && (n < |l| ==> Lt(q, blocks[l[n]].position))
    ensures forall i :: 0 <= i < |l| ==> if i < n then Lt(blocks[l[i]].position, q) else Lt(q, blocks[l[i]].position)
  {
    forall i | 0 <= i < |l|
      ensures if i < n then Lt(blocks[l[i]].position, q) else Lt(q, blocks[l[i]].position)
    {
      if i < n - 1 {
        LtTransitive(blocks[l[i]].position, blocks[l[n - 1]].position, q);
      } else if n < i {
        LtTransitive(q, blocks[l[n]].position, blocks[l[i]].position);
      }
    }
  }

  lemma SiblingFits(blocks: Blocks, p: Option<Id>, l: seq<Id>, after: Option<Id>, q: Rank, i: nat)
    requires Distinct(PositionsUnder(blocks, p)) && ListsChildren(blocks, p, l) && i < |l|
    requires if i < Behind(l, after) then Lt(blocks[l[i]].position, q) else Lt(q, blocks[l[i]].position)
    ensures var r := blocks[l[i]].position;
            && r != q
            && (if after.None? then Lt(q, r)
                else if after.value in l then Lt(r, q) <==> Le(r, blocks[after.value].position)
                else Lt(r, q))
  {
    StrictlySorted(blocks, p, l);
    LtIrreflexive(q);
    var n := Behind(l, after);
    if n <= i {
      LtAsymmetric(q, blocks[l[i]].position);
      if after.Some? && after.value in l {
        LtAsymmetric(blocks[after.value].position, blocks[l[i]].position);
      }
    }
  }

  lemma PositionFits(blocks: Blocks, p: Option<Id>, l: seq<Id>, after: Option<Id>)
    requires Usable(blocks) && Short(blocks) && ListsChildren(blocks, p, l)
    ensures var q := PositionAmong(blocks, l, after);
            && ClientRanks.Proper(q) && Fits(blocks, l, after, q)
            && (after.Some? && after.value in l ==> Lt(blocks[after.value].position, q))
  {
    PositionSplits(blocks, p, l, after);
    var q := PositionAmong(blocks, l, after);
    forall s | s in l
      ensures blocks[s].position != q
      ensures if after.None? then Lt(q, blocks[s].position)
              else if after.value in l then Lt(blocks[s].position, q) <==> Le(blocks[s].position, blocks[after.value].position)
              else Lt(blocks[s].position, q)
    {
      SiblingFits(blocks, p, l, after, q, IndexOf(l, s));
    }
  }

  /** The place the edit asks for: first, right after the given sibling, or last when that is not a sibling. */
  ghost predicate Lands(blocks: Blocks, blocks': Blocks, e: Edit) {
    !e.EditDelete? && (e.EditMove? ==> e.id in blocks) ==>
      var ps := PositionsUnder(blocks', e.parent);
      && (forall x :: x in blocks && x != e.id ==> x in blocks' && blocks'[x] == blocks[x])
      && (e.after.None? ==> IsFirst(ps, e.id))
      && (e.after.Some? && e.after.value != e.id ==>
            if e.after.value in blocks && blocks[e.after.value].parent == e.parent
            then ImmediatelyAfter(ps, e.after.value, e.id)
            else IsLast(ps, e.id))
  }

  /** The block stands where its position fits among its siblings. */
  lemma FittingLands(ps: Positions, blocks: Blocks, l: seq<Id>, id: Id, after: Option<Id>, q: Rank)
    requires Present(blocks, l) && Fits(blocks, l, after, q) && id in ps && ps[id] == q
    requires forall s :: s in ps && s != id ==> s in l && ps[s] == blocks[s].position
    requires forall s :: s in l && s != id ==> s in ps
    requires after.Some? && after.value in l ==> Lt(blocks[after.value].position, q)
    ensures after.None? ==> IsFirst(ps, id)
    ensures after.Some? && after.value != id && after.value in l ==> ImmediatelyAfter(ps, after.value, id)
    ensures after.Some? && after.value !in l ==> IsLast(ps, id)
  {
  }

  lemma PlacedLands(blocks: Blocks, blocks': Blocks, l: seq<Id>, id: Id, b: Block, parent: Option<Id>, after: Option<Id>)
    requires Usable(blocks) && Short(blocks) && ListsChildren(blocks, parent, l)
    requires blocks' == blocks[id := Placed(blocks, l, b, parent, after)]
    ensures Usable(blocks')
    ensures var ps := PositionsUnder(blocks', parent);
            && (after.None? ==> IsFirst(ps, id))
            && (after.Some? && after.value != id && after.value in l ==> ImmediatelyAfter(ps, after.value, id))
            && (after.Some? && after.value !in l ==> IsLast(ps, id))
  {
    var q := PositionAmong(blocks, l, after);
    PositionFits(blocks, parent, l, after);
    var ps := PositionsUnder(blocks', parent);
    FittingLands(ps, blocks, l, id, after, q);
    PlacedIsUsable(blocks, blocks', id, parent);
  }

  /** A block at a proper position that no sibling has. */
  lemma PlacedIsUsable(blocks: Blocks, blocks': Blocks, id: Id, parent: Option<Id>)
    requires Usable(blocks) && id in blocks' && blocks' == blocks[id := blocks'[id]] && blocks'[id].parent == parent
    requires ClientRanks.Proper(blocks'[id].position)
    requires forall s :: s in PositionsUnder(blocks', parent) && s != id ==>
               PositionsUnder(blocks', parent)[s] != blocks'[id].position
    ensures Usable(blocks')
  {
    forall p
      ensures Distinct(PositionsUnder(blocks', p))
    {
      PlacedStaysDistinct(blocks, blocks', id, p, parent);
    }
  }

  lemma PlacedStaysDistinct(blocks: Blocks, blocks': Blocks, id: Id, p: Option<Id>, parent: Option<Id>)
    requires id in blocks' && blocks' == blocks[id := blocks'[id]] && blocks'[id].parent == parent
    requires Distinct(PositionsUnder(blocks, p))
    requires forall s :: s in PositionsUnder(blocks', parent) && s != id ==>
               PositionsUnder(blocks', parent)[s] != blocks'[id].position
    ensures Distinct(PositionsUnder(blocks', p))
  {
    var before, ps, q := PositionsUnder(blocks, p), PositionsUnder(blocks', p), blocks'[id].position;
    if p == parent {
      assert ps == before[id := q];
      assert forall s :: s in before && s != id ==> s in ps && ps[s] == before[s];
      DistinctWithIff(before, id, q);
    } else {
      assert forall s :: s in ps ==> s in before && ps[s] == before[s];
    }
  }

 /** One edit, its deletes being of leaves, keeps the shape and puts the block where it was asked to go. */
  lemma EditLands(blocks: Blocks, blocks': Blocks, e: Edit)
    requires Usable(blocks) && Short(blocks) && EditStep(blocks, blocks', e)
    requires e.EditDelete? ==> Childless(ParentPointers(blocks), e.id)
    ensures Usable(blocks') && Lands(blocks, blocks', e)
  {
    match e
    case EditInsert(id, typ, parent, after, content) =>
      var b := Block(None, [], 0, typ, content, 1);
      var l :| ListsChildren(blocks, parent, l) && blocks' == blocks[id := Placed(blocks, l, b, parent, after)];
      PlacedLands(blocks, blocks', l, id, b, parent, after);
    case EditMove(id, parent, after) =>
      if id in blocks {
        var l :| ListsChildren(blocks, parent, l) && blocks' == blocks[id := Placed(blocks, l, blocks[id], parent, after)];
        PlacedLands(blocks, blocks', l, id, blocks[id], parent, after);
      }
    case EditDelete(id) =>
      assert forall x :: x in blocks' ==> x in blocks && blocks'[x] == blocks[x] by {
        assert forall x :: x in blocks ==> ParentPointers(blocks)[x] == blocks[x].parent;
      }
      forall p
        ensures Distinct(PositionsUnder(blocks', p))
      {
        assert Distinct(PositionsUnder(blocks, p));
        assert forall x :: x in PositionsUnder(blocks', p) ==>
            x in PositionsUnder(blocks, p) && PositionsUnder(blocks', p)[x] == PositionsUnder(blocks, p)[x];
      }
  }

  /** A run of local edits with leaf deletes, as the block maps it goes through. */
  ghost predicate IsRun(states: seq<Blocks>, edits: seq<Edit>) {
    && |states| == |edits| + 1
    && forall i :: 0 <= i < |edits| ==>
         && EditStep(states[i], states[i + 1], edits[i])
         && (edits[i].EditDelete? ==> Childless(ParentPointers(states[i]), edits[i].id))
  }

  /** As long as positions stay short, every block lands where it was asked to go. */
  lemma {:induction false} EveryEditLands(states: seq<Blocks>, edits: seq<Edit>, i: nat)
    requires IsRun(states, edits) && Usable(states[0]) && i < |edits|
    requires forall k :: 0 <= k <= i ==> Short(states[k])
    ensures Usable(states[i + 1]) && Lands(states[i], states[i + 1], edits[i])
    decreases i
  {
    if i > 0 {
      EveryEditLands(states, edits, i - 1);
    }
    EditLands(states[i], states[i + 1], edits[i]);
  }

  /** In the index, landing places are adjacent entries: right after the sibling, at the front or at the end. */
  lemma LandingInIndex(blocks: Blocks, p: Option<Id>, l: seq<Id>, id: Id)
    requires Usable(blocks) && ListsChildren(blocks, p, l)
    ensures var ps := PositionsUnder(blocks, p);
            && (IsFirst(ps, id) ==> l != [] && l[0] == id)
            && (IsLast(ps, id) ==> l != [] && l[|l| - 1] == id)
            && (forall a :: ImmediatelyAfter(ps, a, id) ==>
                  exists i :: 0 <= i < |l| - 1 && l[i] == a && l[i + 1] == id)
  {
    var ps := PositionsUnder(blocks, p);
    StrictlySorted(blocks, p, l);
    assert forall s :: s in ps <==> s in l;
    if id in ps {
      var j := IndexOf(l, id);
      if IsFirst(ps, id) && j > 0 {
        LtAsymmetric(ps[id], ps[l[0]]);
      }
      if IsLast(ps, id) && j < |l| - 1 {
        LtAsymmetric(ps[l[|l| - 1]], ps[id]);
      }
      forall a | ImmediatelyAfter(ps, a, id)
        ensures exists i :: 0 <= i < |l| - 1 && l[i] == a && l[i + 1] == id
      {
        var i := IndexOf(l, a);
        if j < i {
          LtAsymmetric(ps[a], ps[id]);
        } else if i + 1 < j {
          assert l[i + 1] in ps && Lt(ps[l[i + 1]], ps[id]);
          LtAsymmetric(ps[a], ps[l[i + 1]]);
        }
        LtIrreflexive(ps[a]);
        assert i + 1 == j;
      }
    }
  }

  // ------------------------------------------------------------- any positions at all

  /** The block stands first, right after `after`, or last, as asked for. */
  ghost predicate StandsAsAsked(ps: Positions, l: seq<Id>, id: Id, after: Option<Id>) {
    if after.None? then IsFirst(ps, id)
    else if after.value in l then ImmediatelyAfter(ps, after.value, id)
    else IsLast(ps, id)
  }

  /** The block itself is not what it is squeezed against. */
  predicate NotItsOwnNeighbour(l: seq<Id>, id: Id, after: Option<Id>) {
    var n := Behind(l, after);
    n <= |l| && (n > 0 ==> l[n - 1] != id) && (n < |l| ==> l[n] != id)
  }

  lemma BetweenNeighboursFits(blocks: Blocks, p: Option<Id>, l: seq<Id>, after: Option<Id>, q: Rank)
    requires Distinct(PositionsUnder(blocks, p)) && ListsChildren(blocks, p, l) && Behind(l, after) <= |l|
    requires var n := Behind(l, after);
             (n > 0 ==> Lt(blocks[l[n - 1]].position, q)) && (n < |l| ==> Lt(q, blocks[l[n]].position))
    ensures Fits(blocks, l, after, q)
  {
    StrictlySorted(blocks, p, l);
    SplitsAround(blocks, l, q, Behind(l, after));
    forall s | s in l
      ensures blocks[s].position != q
      ensures if after.None? then Lt(q, blocks[s].position)
              else if after.value in l then Lt(blocks[s].position, q) <==> Le(blocks[s].position, blocks[after.value].position)
              else Lt(blocks[s].position, q)
    {
      SiblingFits(blocks, p, l, after, q, IndexOf(l, s));
    }
  }

  /** A block that stands as asked is above the neighbour before it and below the one behind it. */
  lemma StandingIsBetween(ps: Positions, blocks: Blocks, p: Option<Id>, l: seq<Id>, id: Id, after: Option<Id>)
    requires Distinct(PositionsUnder(blocks, p)) && ListsChildren(blocks, p, l) && NotItsOwnNeighbour(l, id, after)
    requires forall s :: s in l && s != id ==> s in ps && ps[s] == blocks[s].position
    requires StandsAsAsked(ps, l, id, after)
    ensures id in ps
    ensures var n := Behind(l, after);
            (n > 0 ==> Lt(blocks[l[n - 1]].position, ps[id])) && (n < |l| ==> Lt(ps[id], blocks[l[n]].position))
  {
    var n := Behind(l, after);
    StrictlySorted(blocks, p, l);
    if after.Some? && after.value in l && n < |l| {
      var prev, next := blocks[l[n - 1]].position, blocks[l[n]].position;
      LtAsymmetric(prev, next);
      LtIrreflexive(next);
      assert l[n] in l && ps[l[n]] == next;
      NotLtIsGe(ps[id], next);
    }
  }

  /** Between its neighbours. */
  ghost predicate IsBetween(prev: Option<Rank>, q: Rank, next: Option<Rank>) {
    (prev.Some? ==> Lt(prev.value, q)) && (next.Some? ==> Lt(q, next.value))
  }

  lemma MidpointIsBetweenIff(prev: Option<Rank>, next: Option<Rank>)
    requires ClientRanks.UpToMax(ClientRanks.OrEmpty(prev)) && (next.Some? ==> Lt(ClientRanks.OrEmpty(prev), next.value))
    ensures IsBetween(prev, ClientRanks.Midpoint(prev, next), next) <==>
              !ClientRanks.IsStuck(prev, next) && !ClientRanks.Overruns(prev, next)
  {
    ClientRanks.MidpointExact(prev, next);
  }

  lemma StandsIffBetween(ps: Positions, blocks: Blocks, p: Option<Id>, l: seq<Id>, id: Id, after: Option<Id>, q: Rank)
    requires Distinct(PositionsUnder(blocks, p)) && ListsChildren(blocks, p, l) && NotItsOwnNeighbour(l, id, after)
    requires id in ps && ps[id] == q && forall s :: s in ps && s != id ==> s in l && ps[s] == blocks[s].position
    requires forall s :: s in l && s != id ==> s in ps
    ensures var (prev, next) := Neighbours(blocks, l, after);
            StandsAsAsked(ps, l, id, after) <==> IsBetween(prev, q, next)
  {
    var (prev, next) := Neighbours(blocks, l, after);
    NeighboursAreNext(blocks, l, after);
    if IsBetween(prev, q, next) {
      BetweenNeighboursFits(blocks, p, l, after, q);
      FittingLands(ps, blocks, l, id, after, q);
    }
    if StandsAsAsked(ps, l, id, after) {
      StandingIsBetween(ps, blocks, p, l, id, after);
    }
  }

  lemma PlacedAmong(blocks: Blocks, blocks': Blocks, l: seq<Id>, id: Id, b: Block, parent: Option<Id>, after: Option<Id>)
    requires ListsChildren(blocks, parent, l) && blocks' == blocks[id := Placed(blocks, l, b, parent, after)]
    ensures var ps := PositionsUnder(blocks', parent);
            && id in ps && ps[id] == PositionAmong(blocks, l, after)
            && (forall s :: s in ps && s != id ==> s in l && ps[s] == blocks[s].position)
            && (forall s :: s in l && s != id ==> s in ps)
  {
  }

  /**
   * Whatever the positions, server ranks included: a block lands where it was asked to
   * go exactly if `midpoint` neither gives up nor overruns on the neighbours' positions.
   */
  lemma PlacedLandsIff(blocks: Blocks, blocks': Blocks, l: seq<Id>, id: Id, b: Block, parent: Option<Id>, after: Option<Id>)
    requires forall x :: x in blocks ==> ClientRanks.UpToMax(blocks[x].position) && blocks[x].position != []
    requires Distinct(PositionsUnder(blocks, parent)) && ListsChildren(blocks, parent, l) && NotItsOwnNeighbour(l, id, after)
    requires blocks' == blocks[id := Placed(blocks, l, b, parent, after)]
    ensures var (prev, next) := Neighbours(blocks, l, after);
            StandsAsAsked(PositionsUnder(blocks', parent), l, id, after) <==>
              !ClientRanks.IsStuck(prev, next) && !ClientRanks.Overruns(prev, next)
  {
    var (prev, next) := Neighbours(blocks, l, after);
    StrictlySorted(blocks, parent, l);
    NeighboursInOrder(blocks, l, after);
    MidpointIsBetweenIff(prev, next);
    PlacedAmong(blocks, blocks', l, id, b, parent, after);
    StandsIffBetween(PositionsUnder(blocks', parent), blocks, parent, l, id, after, PositionAmong(blocks, l, after));
  }

  lemma NeighboursInOrder(blocks: Blocks, l: seq<Id>, after: Option<Id>)
    requires Present(blocks, l) && forall i, j :: 0 <= i < j < |l| ==> Lt(blocks[l[i]].position, blocks[l[j]].position)
    requires forall x :: x in blocks ==> ClientRanks.UpToMax(blocks[x].position) && blocks[x].position != []
    ensures var (prev, next) := Neighbours(blocks, l, after);
            ClientRanks.UpToMax(ClientRanks.OrEmpty(prev)) && (next.Some? ==> Lt(ClientRanks.OrEmpty(prev), next.value))
  {
    NeighboursAreNext(blocks, l, after);
  }
}
