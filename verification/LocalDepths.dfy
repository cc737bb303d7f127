/** When local edits keep the recorded depths right: apps/web/src/store/block-store.ts. */
module LocalDepths {
  import opened Wrappers
  import opened Forest
  import opened BlockIndex
  import opened BlockStore

  function LocalDepthsOf(blocks: Blocks): map<Id, nat> {
    map x | x in blocks :: blocks[x].depth
  }

  /** Every recorded depth is the number of ancestors. */
  ghost predicate LocalDepthsRight(blocks: Blocks) {
    DepthsOk(ParentPointers(blocks), LocalDepthsOf(blocks))
  }

  /** The edit is for a new block, or one that exists, under a parent that exists. */
  predicate WellAimed(blocks: Blocks, e: Edit) {
    match e
    case EditInsert(id, _, parent, _, _) => id !in blocks && (parent.Some? ==> parent.value in blocks)
    case EditMove(id, parent, _) => id in blocks && (parent.Some? ==> parent.value in blocks)
    case EditDelete(id) => id in blocks
  }

  /** A move that makes no cycle and moves a leaf or keeps the level; a delete of a leaf; any insert. */
  ghost predicate DepthSafe(blocks: Blocks, e: Edit)
    requires WellAimed(blocks, e)
  {
    match e
    case EditInsert(_, _, _, _, _) => true
    case EditMove(id, parent, _) =>
      && (parent.Some? ==> !Under(ParentPointers(blocks), parent.value, id))
      && (Childless(ParentPointers(blocks), id) || LocalDepth(blocks, parent) == blocks[id].depth)
    case EditDelete(id) => Childless(ParentPointers(blocks), id)
  }

  lemma OneBlockPlaced(blocks: Blocks, id: Id, b: Block)
    ensures ParentPointers(blocks[id := b]) == ParentPointers(blocks)[id := b.parent]
    ensures LocalDepthsOf(blocks[id := b]) == LocalDepthsOf(blocks)[id := b.depth]
  {
  }

  lemma LeafDeleteKeepsDepths(blocks: Blocks, id: Id, heir: Option<Id>)
    requires LocalDepthsRight(blocks) && id in blocks && Childless(ParentPointers(blocks), id)
    ensures LocalDepthsRight(WithoutBlock(blocks, id, heir))
  {
    var ps, ds := ParentPointers(blocks), LocalDepthsOf(blocks);
    var blocks' := WithoutBlock(blocks, id, heir);
    assert forall x :: x in blocks ==> ps[x] == blocks[x].parent;
    PruneIsSingletonIff(ps, id);
    assert ParentPointers(blocks') == Prune(ps, id);
    forall x | x in blocks'
      ensures AtDepth(ParentPointers(blocks'), x, LocalDepthsOf(blocks')[x])
    {
      assert x in Prune(ps, id);
      PrunedDepth(ps, id, x, ds[x]);
    }
  }

  /** Promoted children keep their old depth, which is one too many. */
  lemma PromotionSpoilsDepths(blocks: Blocks, id: Id)
    requires LocalDepthsRight(blocks) && id in blocks && !Childless(ParentPointers(blocks), id)
    ensures !LocalDepthsRight(WithoutBlock(blocks, id, blocks[id].parent))
  {
    var ps, ds := ParentPointers(blocks), LocalDepthsOf(blocks);
    var blocks' := WithoutBlock(blocks, id, blocks[id].parent);
    var ps' := ParentPointers(blocks');
    var c :| c in ps && ps[c] == Some(id);
    DepthUnique(ps, id, ds[id], ds[c] - 1);
    assert c != id;
    if LocalDepthsRight(blocks') {
      assert AtDepth(ps', c, ds[c]) && ps'[c] == ps[id];
      if ps[id].Some? {
        var p := ps[id].value;
        assert AtDepth(ps, id, ds[id]) && AtDepth(ps, p, ds[id] - 1);
        DepthUnique(ps, p, ds[p], ds[id] - 1);
        assert p != id && p in blocks';
        DepthUnique(ps', p, ds[p], ds[c] - 1);
      }
    }
  }

  lemma EditPlaces(blocks: Blocks, blocks': Blocks, e: Edit)
    requires WellAimed(blocks, e) && !e.EditDelete? && EditStep(blocks, blocks', e)
    ensures e.id in blocks' && blocks' == blocks[e.id := blocks'[e.id]]
    ensures blocks'[e.id].parent == e.parent && blocks'[e.id].depth == LocalDepth(blocks, e.parent)
  {
  }

  lemma PlacedDepthsIff(blocks: Blocks, blocks': Blocks, e: Edit)
    requires LocalDepthsRight(blocks) && WellAimed(blocks, e) && !e.EditDelete? && EditStep(blocks, blocks', e)
    ensures LocalDepthsRight(blocks') <==> DepthSafe(blocks, e)
  {
    var ps, ds := ParentPointers(blocks), LocalDepthsOf(blocks);
    EditPlaces(blocks, blocks', e);
    OneBlockPlaced(blocks, e.id, blocks'[e.id]);
    assert LocalDepth(blocks, e.parent) == DepthBelow(ds, e.parent);
    if e.EditInsert? {
      AddedDepths(ps, ds, e.id, e.parent);
    } else {
      ReparentDepthsIff(ps, ds, e.id, e.parent);
    }
  }

  /** A well-aimed local edit keeps the recorded depths right exactly if it is depth-safe. */
  lemma EditDepthsIff(blocks: Blocks, blocks': Blocks, e: Edit)
    requires LocalDepthsRight(blocks) && WellAimed(blocks, e) && EditStep(blocks, blocks', e)
    ensures LocalDepthsRight(blocks') <==> DepthSafe(blocks, e)
  {
    if !e.EditDelete? {
      PlacedDepthsIff(blocks, blocks', e);
    } else if Childless(ParentPointers(blocks), e.id) {
      LeafDeleteKeepsDepths(blocks, e.id, blocks[e.id].parent);
    } else {
      PromotionSpoilsDepths(blocks, e.id);
    }
  }
}
