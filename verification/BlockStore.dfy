/** The client's block store: apps/web/src/store/block-store.ts. */
module BlockStore {
  import opened Wrappers
  import opened Ranks
  import opened Forest
  import opened Wire
  import opened BlockIndex
  import ClientRanks

  /** An operation queued by a local edit. */
  datatype LocalOp =
    | LocalInsert(id: Id, typ: string, parent: Option<Id>, after: Option<Id>, content: Content, position: Rank)
    | LocalDelete(id: Id, version: nat)
    | LocalMove(id: Id, parent: Option<Id>, after: Option<Id>, position: Rank, version: nat)
    | LocalAttrs(id: Id, attrs: Attrs, version: nat)

  datatype Batch = Batch(clientSeq: nat, ops: seq<LocalOp>)

  // ------------------------------------------------------- computing positions

  /** The children of `p` among `order`, in that order. */
  function SiblingsIn(blocks: Blocks, order: seq<Id>, p: Option<Id>): seq<Id> {
    if order == [] then []
    else (if order[0] in blocks && blocks[order[0]].parent == p then [order[0]] else []) + SiblingsIn(blocks, order[1..], p)
  }

  lemma {:induction false} SiblingsInConcat(blocks: Blocks, a: seq<Id>, b: seq<Id>, p: Option<Id>)
    ensures SiblingsIn(blocks, a + b, p) == SiblingsIn(blocks, a, p) + SiblingsIn(blocks, b, p)
  {
    if a == [] {
      assert a + b == b;
    } else {
      assert (a + b)[1..] == a[1..] + b;
      SiblingsInConcat(blocks, a[1..], b, p);
    }
  }

  lemma {:induction false} SiblingsInAll(blocks: Blocks, l: seq<Id>, q: Option<Id>, p: Option<Id>)
    requires forall i :: 0 <= i < |l| ==> l[i] in blocks && blocks[l[i]].parent == q
    ensures SiblingsIn(blocks, l, p) == if p == q then l else []
  {
    if l != [] {
      assert l == [l[0]] + l[1..];
      SiblingsInAll(blocks, l[1..], q, p);
    }
  }

  lemma OnlyRoots(blocks: Blocks, rootOrder: seq<Id>)
    requires ListsChildren(blocks, None, rootOrder)
    ensures forall p :: SiblingsIn(blocks, rootOrder, p) == if p == None then rootOrder else []
  {
    forall p
      ensures SiblingsIn(blocks, rootOrder, p) == if p == None then rootOrder else []
    {
      SiblingsInAll(blocks, rootOrder, None, p);
    }
  }

  /** `order` yields the index entry of every parent except those still to be added. */
  ghost predicate OrderCovers(blocks: Blocks, order: seq<Id>, rootOrder: seq<Id>, childrenMap: Children, todo: set<Id>) {
    forall p :: SiblingsIn(blocks, order, p) == if p.Some? && p.value in todo then [] else EntryFor(rootOrder, childrenMap, p)
  }

  lemma CoversNext(blocks: Blocks, order: seq<Id>, rootOrder: seq<Id>, childrenMap: Children, todo: set<Id>, k: Id)
    requires OrderCovers(blocks, order, rootOrder, childrenMap, todo)
    requires k in todo && k in childrenMap && ListsChildren(blocks, Some(k), childrenMap[k])
    ensures OrderCovers(blocks, order + childrenMap[k], rootOrder, childrenMap, todo - {k})
  {
    var l := childrenMap[k];
    forall p
      ensures SiblingsIn(blocks, order + l, p)
                == if p.Some? && p.value in todo - {k} then [] else EntryFor(rootOrder, childrenMap, p)
    {
      SiblingsInConcat(blocks, order, l, p);
      SiblingsInAll(blocks, l, Some(k), p);
    }
  }

  /** Array.findIndex; the length when there is none. */
  function IndexOf(l: seq<Id>, x: Id): (i: nat)
    ensures i <= |l| && (i < |l| <==> x in l)
    ensures i < |l| ==> l[i] == x
  {
    if l == [] then 0 else if l[0] == x then 0 else 1 + IndexOf(l[1..], x)
  }

  /** The positions a new block is squeezed between: after `after`, first without it, last if it is no sibling. */
  function Neighbours(blocks: Blocks, siblings: seq<Id>, after: Option<Id>): (Option<Rank>, Option<Rank>)
    requires Present(blocks, siblings)
  {
    if after.None? then
      (None, if siblings == [] then None else Some(blocks[siblings[0]].position))
    else
      var idx := IndexOf(siblings, after.value);
      if idx < |siblings| then
        (Some(blocks[siblings[idx]].position),
         if idx + 1 < |siblings| then Some(blocks[siblings[idx + 1]].position) else None)
      else
        (if siblings == [] then None else Some(blocks[siblings[|siblings| - 1]].position), None)
  }

  function PositionAmong(blocks: Blocks, siblings: seq<Id>, after: Option<Id>): Rank
    requires Present(blocks, siblings)
  {
    var (prev, next) := Neighbours(blocks, siblings, after);
    ClientRanks.Midpoint(prev, next)
  }

  lemma {:induction false} SiblingsInPresent(blocks: Blocks, order: seq<Id>, p: Option<Id>)
    ensures Present(blocks, SiblingsIn(blocks, order, p))
  {
    if order != [] {
      SiblingsInPresent(blocks, order[1..], p);
    }
  }

  function LocalDepth(blocks: Blocks, parent: Option<Id>): nat {
    if parent.None? then 0 else if parent.value in blocks then blocks[parent.value].depth + 1 else 1
  }

  // ------------------------------------------------------------------ updates

  /** Spreading new attributes over the old ones; null values are kept. */
  function SpreadAttrs(c: Content, attrs: Attrs): Content {
    c.(attrs := Some(AttrsOf(c) + attrs))
  }

  /** The map without `id`, the children of `id` handed to `heir`. */
  function WithoutBlock(blocks: Blocks, id: Id, heir: Option<Id>): Blocks {
    map x | x in blocks && x != id ::
      if blocks[x].parent == Some(id) then blocks[x].(parent := heir) else blocks[x]
  }

  /** One streamed operation.  The deleted block is gone when its parent is looked up, so children go to the root. */
  function RemoteStep(blocks: Blocks, op: WireOp): Blocks {
    match op.payload
    case InsertPayload(typ, parent, position, _, content) =>
      blocks[op.id := Block(parent, position, LocalDepth(blocks, parent), typ, content, 1)]
    case DeletePayload => WithoutBlock(blocks, op.id, None)
    case MovePayload(parent, position, _) =>
      if op.id !in blocks then blocks
      else blocks[op.id := blocks[op.id].(parent := parent, position := position)]
    case AttrsPayload(attrs) =>
      if op.id !in blocks then blocks
      else blocks[op.id := blocks[op.id].(content := SpreadAttrs(blocks[op.id].content, attrs), version := op.version + 1)]
    case ContentPayload(content) =>
      if op.id !in blocks then blocks
      else blocks[op.id := blocks[op.id].(content := content, version := op.version + 1)]
  }

  function ApplyRemote(blocks: Blocks, ops: seq<WireOp>): Blocks {
    if ops == [] then blocks else RemoteStep(ApplyRemote(blocks, ops[..|ops| - 1]), ops[|ops| - 1])
  }

  lemma {:induction false} ApplyRemoteConcat(blocks: Blocks, a: seq<WireOp>, b: seq<WireOp>)
    ensures ApplyRemote(blocks, a + b) == ApplyRemote(ApplyRemote(blocks, a), b)
  {
    if b == [] {
      assert a + b == a;
    } else {
      assert (a + b)[..|a + b| - 1] == a + b[..|b| - 1];
      ApplyRemoteConcat(blocks, a, b[..|b| - 1]);
    }
  }

  // ---------------------------------------------------------------- local edits

  /** A structural edit made in the editor. */
  datatype Edit =
    | EditInsert(id: Id, typ: string, parent: Option<Id>, after: Option<Id>, content: Content)
    | EditMove(id: Id, parent: Option<Id>, after: Option<Id>)
    | EditDelete(id: Id)

  /** The block `b` with its new place under `parent`. */
  function Placed(blocks: Blocks, siblings: seq<Id>, b: Block, parent: Option<Id>, after: Option<Id>): Block
    requires Present(blocks, siblings)
  {
    b.(parent := parent, position := PositionAmong(blocks, siblings, after), depth := LocalDepth(blocks, parent))
  }

  /** `blocks'` is what the edit makes of `blocks`, for some index of `blocks`. */
  ghost predicate EditStep(blocks: Blocks, blocks': Blocks, e: Edit) {
    match e
    case EditInsert(id, typ, parent, after, content) =>
      exists siblings :: ListsChildren(blocks, parent, siblings) &&
        blocks' == blocks[id := Placed(blocks, siblings, Block(None, [], 0, typ, content, 1), parent, after)]
    case EditMove(id, parent, after) =>
      if id !in blocks then blocks' == blocks
      else
        exists siblings :: ListsChildren(blocks, parent, siblings) &&
          blocks' == blocks[id := Placed(blocks, siblings, blocks[id], parent, after)]
    case EditDelete(id) =>
      blocks' == if id in blocks then WithoutBlock(blocks, id, blocks[id].parent) else blocks
  }

  /** The block map after placing `b` as `id` by the index. */
  function PlaceByIndex(blocks: Blocks, rootOrder: seq<Id>, childrenMap: Children,
                        id: Id, b: Block, parent: Option<Id>, after: Option<Id>): Blocks
    requires Present(blocks, EntryFor(rootOrder, childrenMap, parent))
  {
    blocks[id := Placed(blocks, EntryFor(rootOrder, childrenMap, parent), b, parent, after)]
  }

  lemma IndexedPlacementIsEdit(blocks: Blocks, rootOrder: seq<Id>, childrenMap: Children,
                               id: Id, b: Block, parent: Option<Id>, after: Option<Id>)
    requires IsIndex(blocks, rootOrder, childrenMap)
    ensures Present(blocks, EntryFor(rootOrder, childrenMap, parent))
    ensures var blocks' := PlaceByIndex(blocks, rootOrder, childrenMap, id, b, parent, after);
            && (id in blocks && b == blocks[id] ==> EditStep(blocks, blocks', EditMove(id, parent, after)))
            && (b == Block(None, [], 0, b.typ, b.content, 1) ==>
                  EditStep(blocks, blocks', EditInsert(id, b.typ, parent, after, b.content)))
  {
    EntryLists(blocks, rootOrder, childrenMap, parent);
  }

  // -------------------------------------------------------------- pending queue

  /** Queued batches carry increasing sequence numbers below the next one. */
  ghost predicate PendingOk(pending: seq<Batch>, next: nat) {
    && (forall i, j :: 0 <= i < j < |pending| ==> pending[i].clientSeq < pending[j].clientSeq)
    && (forall i :: 0 <= i < |pending| ==> pending[i].clientSeq < next)
  }

  /** The queue without the batch `clientSeq`. */
  function Settle(pending: seq<Batch>, clientSeq: nat): seq<Batch> {
    if pending == [] then []
    else (if pending[0].clientSeq == clientSeq then [] else [pending[0]]) + Settle(pending[1..], clientSeq)
  }

  lemma PendingTail(pending: seq<Batch>, next: nat)
    requires PendingOk(pending, next) && pending != []
    ensures PendingOk(pending[1..], next)
    ensures forall b :: b in pending[1..] ==> pending[0].clientSeq < b.clientSeq
  {
  }

  lemma PendingCons(b: Batch, t: seq<Batch>, next: nat)
    requires PendingOk(t, next) && b.clientSeq < next && forall c :: c in t ==> b.clientSeq < c.clientSeq
    ensures PendingOk([b] + t, next)
  {
  }

  lemma {:induction false} SettleKeepsOrder(pending: seq<Batch>, clientSeq: nat, next: nat)
    requires PendingOk(pending, next)
    ensures PendingOk(Settle(pending, clientSeq), next)
    ensures forall b :: b in Settle(pending, clientSeq) ==> b in pending
  {
    if pending != [] {
      PendingTail(pending, next);
      SettleKeepsOrder(pending[1..], clientSeq, next);
      PendingCons(pending[0], Settle(pending[1..], clientSeq), next);
    }
  }

  lemma {:induction false} SettleConcat(a: seq<Batch>, b: seq<Batch>, clientSeq: nat)
    ensures Settle(a + b, clientSeq) == Settle(a, clientSeq) + Settle(b, clientSeq)
  {
    if a == [] {
      assert a + b == b;
    } else {
      assert (a + b)[1..] == a[1..] + b;
      SettleConcat(a[1..], b, clientSeq);
    }
  }

  lemma OthersDiffer(pending: seq<Batch>, next: nat, i: nat)
    requires PendingOk(pending, next) && i < |pending|
    ensures forall b :: b in pending[..i] ==> b.clientSeq != pending[i].clientSeq
    ensures forall b :: b in pending[i + 1..] ==> b.clientSeq != pending[i].clientSeq
  {
  }

  lemma SettleCons(c: Batch, b: seq<Batch>, clientSeq: nat)
    ensures Settle([c] + b, clientSeq) == (if c.clientSeq == clientSeq then [] else [c]) + Settle(b, clientSeq)
  {
    assert ([c] + b)[1..] == b;
  }

  lemma SettleMiddle(a: seq<Batch>, c: Batch, b: seq<Batch>, rest: seq<Batch>, all: seq<Batch>)
    requires forall x :: x in a ==> x.clientSeq != c.clientSeq
    requires forall x :: x in b ==> x.clientSeq != c.clientSeq
    requires rest == [c] + b && all == a + rest
    ensures Settle(all, c.clientSeq) == a + b
  {
    SettleConcat(a, rest, c.clientSeq);
    SettleAbsent(a, c.clientSeq);
    SettleCons(c, b, c.clientSeq);
    SettleAbsent(b, c.clientSeq);
  }

  /** A reply settles exactly one batch: the queue loses the batch with its number and nothing else. */
  lemma SettleRemovesOne(pending: seq<Batch>, clientSeq: nat, next: nat, i: nat)
    requires PendingOk(pending, next) && i < |pending| && pending[i].clientSeq == clientSeq
    ensures Settle(pending, clientSeq) == pending[..i] + pending[i + 1..]
  {
    OthersDiffer(pending, next, i);
    assert pending[i..] == [pending[i]] + pending[i + 1..] && pending == pending[..i] + pending[i..];
    SettleMiddle(pending[..i], pending[i], pending[i + 1..], pending[i..], pending);
  }

  lemma {:induction false} SettleAbsent(pending: seq<Batch>, clientSeq: nat)
    requires forall b :: b in pending ==> b.clientSeq != clientSeq
    ensures Settle(pending, clientSeq) == pending
  {
    if pending != [] {
      SettleAbsent(pending[1..], clientSeq);
      assert pending == [pending[0]] + pending[1..];
    }
  }

  // ------------------------------------------------------- replies of the server

  function SetVersions(blocks: Blocks, results: seq<(Id, nat)>): Blocks {
    if results == [] then blocks
    else
      var (id, version) := results[|results| - 1];
      var before := SetVersions(blocks, results[..|results| - 1]);
      if id in before then before[id := before[id].(version := version)] else before
  }

  function Rebase(blocks: Blocks, conflicts: seq<(Id, Option<Block>)>): Blocks {
    if conflicts == [] then blocks
    else
      var (id, current) := conflicts[|conflicts| - 1];
      var before := Rebase(blocks, conflicts[..|conflicts| - 1]);
      if current.Some? then before[id := current.value] else before - {id}
  }

  function FromSnapshot(list: seq<(Id, Block)>): Blocks {
    if list == [] then map[]
    else FromSnapshot(list[..|list| - 1])[list[|list| - 1].0 := list[|list| - 1].1]
  }

  /** `b` is what the last occurrence of `id` in the list carries. */
  predicate IsLastOf(list: seq<(Id, Block)>, id: Id, b: Block) {
    exists i :: 0 <= i < |list| && list[i] == (id, b) && forall j :: i < j < |list| ==> list[j].0 != id
  }

  lemma {:induction false} SnapshotHolds(list: seq<(Id, Block)>)
    ensures forall id, b :: (id in FromSnapshot(list) && FromSnapshot(list)[id] == b) <==> IsLastOf(list, id, b)
  {
    if list != [] {
      var n := |list| - 1;
      SnapshotHolds(list[..n]);
      forall id, b
        ensures (id in FromSnapshot(list) && FromSnapshot(list)[id] == b) <==> IsLastOf(list, id, b)
      {
        LastOfNext(list, id, b);
      }
    }
  }

  lemma LastOfNext(list: seq<(Id, Block)>, id: Id, b: Block)
    requires list != []
    ensures var n := |list| - 1; IsLastOf(list, id, b) <==> list[n] == (id, b) || (list[n].0 != id && IsLastOf(list[..n], id, b))
  {
    var n := |list| - 1;
    if i :| 0 <= i < n && list[..n][i] == (id, b) && (forall j :: i < j < n ==> list[..n][j].0 != id) && list[n].0 != id {
      assert list[i] == (id, b);
      forall j | i < j < |list|
        ensures list[j].0 != id
      {
        assert j < n ==> list[..n][j] == list[j];
      }
    }
    if i :| 0 <= i < |list| && list[i] == (id, b) && forall j :: i < j < |list| ==> list[j].0 != id {
      if i < n {
        assert list[..n][i] == (id, b);
        assert forall j :: i < j < n ==> list[..n][j] == list[j];
      }
    }
  }

  // ------------------------------------------------- what one change does to a block

  /** A local insert leaves the block as asked for, under its parent and one level below it, and no other changed. */
  lemma InsertedIs(blocks: Blocks, blocks': Blocks, e: Edit)
    requires e.EditInsert? && EditStep(blocks, blocks', e)
    ensures blocks'.Keys == blocks.Keys + {e.id} && forall x :: x in blocks && x != e.id ==> blocks'[x] == blocks[x]
    ensures var b := blocks'[e.id];
            && b.typ == e.typ && b.content == e.content && b.version == 1 && b.parent == e.parent
            && b.depth == if e.parent.None? then 0 else if e.parent.value in blocks then blocks[e.parent.value].depth + 1 else 1
  {
  }

  /** A local move keeps type, content and version. */
  lemma MovedIs(blocks: Blocks, blocks': Blocks, e: Edit)
    requires e.EditMove? && EditStep(blocks, blocks', e)
    ensures blocks'.Keys == blocks.Keys && forall x :: x in blocks && x != e.id ==> blocks'[x] == blocks[x]
    ensures e.id in blocks ==>
              var b, was := blocks'[e.id], blocks[e.id];
              && b.typ == was.typ && b.content == was.content && b.version == was.version && b.parent == e.parent
              && b.depth == if e.parent.None? then 0 else if e.parent.value in blocks then blocks[e.parent.value].depth + 1 else 1
  {
  }

  /** `b` is `was` under another parent. */
  predicate OnlyMovedTo(was: Block, b: Block, parent: Option<Id>) {
    && b.parent == parent && b.position == was.position && b.depth == was.depth
    && b.typ == was.typ && b.content == was.content && b.version == was.version
  }

  /** The block is gone, its children are under `heir`, and nothing else is changed about any other. */
  ghost predicate GoneTo(blocks: Blocks, blocks': Blocks, id: Id, heir: Option<Id>) {
    && blocks'.Keys == blocks.Keys - {id}
    && forall x :: x in blocks' ==> OnlyMovedTo(blocks[x], blocks'[x], if blocks[x].parent == Some(id) then heir else blocks[x].parent)
  }

  /** A local delete hands the children to the grandparent, a streamed one to the root. */
  lemma DeletedIs(blocks: Blocks, blocks': Blocks, e: Edit, op: WireOp)
    requires e.EditDelete? && EditStep(blocks, blocks', e) && op.payload.DeletePayload?
    ensures if e.id in blocks then GoneTo(blocks, blocks', e.id, blocks[e.id].parent) else blocks' == blocks
    ensures GoneTo(blocks, RemoteStep(blocks, op), op.id, None)
  {
  }

  /** What a streamed operation other than a delete leaves of its block. */
  lemma StreamedIs(blocks: Blocks, op: WireOp)
    requires !op.payload.DeletePayload?
    ensures var blocks' := RemoteStep(blocks, op);
            && (forall x :: x in blocks && x != op.id ==> x in blocks' && blocks'[x] == blocks[x])
            && (op.id in blocks' <==> op.id in blocks || op.payload.InsertPayload?)
            && (forall x :: x in blocks' ==> x in blocks || x == op.id)
            && (op.id in blocks' ==>
                  var b := blocks'[op.id];
                  match op.payload
                  case InsertPayload(typ, parent, position, _, content) =>
                    && b.parent == parent && b.position == position && b.typ == typ && b.content == content && b.version == 1
                    && b.depth == if parent.None? then 0 else if parent.value in blocks then blocks[parent.value].depth + 1 else 1
                  case MovePayload(parent, position, _) => b == blocks[op.id].(parent := parent, position := position)
                  case AttrsPayload(attrs) =>
                    && b == blocks[op.id].(content := b.content, version := op.version + 1)
                    && b.content.body == blocks[op.id].content.body && b.content.attrs.Some?
                    && b.content.attrs.value ==
                         (if blocks[op.id].content.attrs.Some? then blocks[op.id].content.attrs.value else map[]) + attrs
                  case ContentPayload(content) => b == blocks[op.id].(content := content, version := op.version + 1)
                  case DeletePayload => true)
  {
  }

  /** Every block has the version of the last result for it, all else being as before. */
  lemma {:induction false} VersionsSet(blocks: Blocks, results: seq<(Id, nat)>, x: Id)
    ensures var after := SetVersions(blocks, results);
            && (x in after <==> x in blocks)
            && (x in after ==>
                  && after[x] == blocks[x].(version := after[x].version)
                  && ((forall i :: 0 <= i < |results| ==> results[i].0 != x) ==> after[x] == blocks[x])
                  && (forall i :: 0 <= i < |results| && results[i].0 == x && (forall j :: i < j < |results| ==> results[j].0 != x) ==>
                        after[x].version == results[i].1))
  {
    if results != [] {
      VersionsSet(blocks, results[..|results| - 1], x);
    }
  }

  // ------------------------------------------------------------------- the store

  class Store {
    var blocks: Blocks
    var rootOrder: seq<Id>
    var childrenMap: Children
    var lastStreamId: Option<string>
    var pendingOps: seq<Batch>
    var clientSeqCounter: nat

    /** The derived index agrees with the block map, and the queue is in order. */
    ghost predicate Valid()
      reads this
    {
      IsIndex(blocks, rootOrder, childrenMap) && PendingOk(pendingOps, clientSeqCounter)
    }

    constructor ()
      ensures Valid() && blocks == map[] && pendingOps == [] && clientSeqCounter == 1 && lastStreamId == None
    {
      blocks, rootOrder, childrenMap := map[], [], map[];
      lastStreamId, pendingOps, clientSeqCounter := None, [], 1;
    }

    method LoadSnapshot(list: seq<(Id, Block)>, streamId: string)
      modifies this
      ensures Valid() && blocks == FromSnapshot(list) && lastStreamId == Some(streamId)
      ensures forall id, b :: (id in blocks && blocks[id] == b) <==> IsLastOf(list, id, b)
      ensures pendingOps == [] && clientSeqCounter == 1
    {
      var m: Blocks := map[];
      for i := 0 to |list|
        invariant m == FromSnapshot(list[..i])
      {
        assert list[..i + 1][..i] == list[..i];
        m := m[list[i].0 := list[i].1];
      }
      assert list[..|list|] == list;
      SnapshotHolds(list);
      blocks := m;
      rootOrder, childrenMap := RebuildIndex(m);
      lastStreamId, pendingOps, clientSeqCounter := Some(streamId), [], 1;
    }

    method ResetDoc()
      modifies this
      ensures Valid() && blocks == map[] && lastStreamId == None && pendingOps == [] && clientSeqCounter == 1
    {
      blocks, rootOrder, childrenMap := map[], [], map[];
      lastStreamId, pendingOps, clientSeqCounter := None, [], 1;
    }

    method EnqueueOps(ops: seq<LocalOp>) returns (clientSeq: nat)
      requires Valid()
      modifies this`pendingOps, this`clientSeqCounter
      ensures Valid()
      ensures clientSeq == old(clientSeqCounter) && clientSeqCounter == clientSeq + 1
      ensures pendingOps == old(pendingOps) + [Batch(clientSeq, ops)]
    {
      clientSeq := clientSeqCounter;
      clientSeqCounter := clientSeq + 1;
      pendingOps := pendingOps + [Batch(clientSeq, ops)];
    }

    /** All ids of the index: the roots and every children list, the lists in any order. */
    method AllOrder() returns (order: seq<Id>)
      requires Valid()
      ensures forall p :: SiblingsIn(blocks, order, p) == EntryFor(rootOrder, childrenMap, p)
    {
      order := rootOrder;
      var todo := childrenMap.Keys;
      OnlyRoots(blocks, rootOrder);
      while todo != {}
        invariant todo <= childrenMap.Keys
        invariant OrderCovers(blocks, order, rootOrder, childrenMap, todo)
      {
        var k :| k in todo;
        CoversNext(blocks, order, rootOrder, childrenMap, todo, k);
        order := order + childrenMap[k];
        todo := todo - {k};
      }
    }

    method ComputePosition(order: seq<Id>, parent: Option<Id>, after: Option<Id>) returns (position: Rank)
      ensures Present(blocks, SiblingsIn(blocks, order, parent))
      ensures position == PositionAmong(blocks, SiblingsIn(blocks, order, parent), after)
    {
      var siblings := SiblingsIn(blocks, order, parent);
      SiblingsInPresent(blocks, order, parent);
      var (prev, next) := Neighbours(blocks, siblings, after);
      position := ClientRanks.ComputeMidpoint(prev, next);
    }

    /** Sets one block of the map and rebuilds the index. */
    method Put(id: Id, b: Block)
      requires Valid()
      modifies this`blocks, this`rootOrder, this`childrenMap
      ensures Valid() && blocks == old(blocks)[id := b]
    {
      blocks := blocks[id := b];
      rootOrder, childrenMap := RebuildIndex(blocks);
    }

    method InsertBlock(id: Id, typ: string, parent: Option<Id>, after: Option<Id>, content: Content)
      requires Valid()
      modifies this
      ensures Valid() && lastStreamId == old(lastStreamId)
      ensures Present(old(blocks), EntryFor(old(rootOrder), old(childrenMap), parent))
      ensures blocks == PlaceByIndex(old(blocks), old(rootOrder), old(childrenMap), id, Block(None, [], 0, typ, content, 1), parent, after)
      ensures EditStep(old(blocks), blocks, EditInsert(id, typ, parent, after, content))
      ensures blocks[id].typ == typ && blocks[id].content == content && blocks[id].version == 1 && blocks[id].parent == parent
      ensures forall x :: x in old(blocks) && x != id ==> x in blocks && blocks[x] == old(blocks)[x]
      ensures pendingOps == old(pendingOps) +
                [Batch(old(clientSeqCounter), [LocalInsert(id, typ, parent, after, content, blocks[id].position)])]
      ensures clientSeqCounter == old(clientSeqCounter) + 1
    {
      IndexedPlacementIsEdit(blocks, rootOrder, childrenMap, id, Block(None, [], 0, typ, content, 1), parent, after);
      var order := AllOrder();
      var position := ComputePosition(order, parent, after);
      Put(id, Block(parent, position, LocalDepth(blocks, parent), typ, content, 1));
      var _ := EnqueueOps([LocalInsert(id, typ, parent, after, content, position)]);
    }

    method DeleteBlock(id: Id)
      requires Valid()
      modifies this
      ensures Valid() && lastStreamId == old(lastStreamId)
      ensures id !in old(blocks) ==>
                blocks == old(blocks) && pendingOps == old(pendingOps) && clientSeqCounter == old(clientSeqCounter)
      ensures id in old(blocks) ==>
                && blocks == WithoutBlock(old(blocks), id, old(blocks[id].parent))
                && pendingOps == old(pendingOps) + [Batch(old(clientSeqCounter), [LocalDelete(id, old(blocks[id].version))])]
                && clientSeqCounter == old(clientSeqCounter) + 1
      ensures EditStep(old(blocks), blocks, EditDelete(id))
    {
      if id !in blocks {
        return;
      }
      var existing := blocks[id];
      blocks := RemoveAndPromote(blocks, id, existing.parent);
      rootOrder, childrenMap := RebuildIndex(blocks);
      var _ := EnqueueOps([LocalDelete(id, existing.version)]);
    }

    method MoveBlock(id: Id, parent: Option<Id>, after: Option<Id>)
      requires Valid()
      modifies this
      ensures Valid() && lastStreamId == old(lastStreamId)
      ensures EditStep(old(blocks), blocks, EditMove(id, parent, after))
      ensures forall x :: x in old(blocks) && x != id ==> x in blocks && blocks[x] == old(blocks)[x]
      ensures id in old(blocks) ==>
                && blocks[id].typ == old(blocks)[id].typ && blocks[id].content == old(blocks)[id].content
                && blocks[id].version == old(blocks)[id].version && blocks[id].parent == parent
      ensures id !in old(blocks) ==>
                blocks == old(blocks) && pendingOps == old(pendingOps) && clientSeqCounter == old(clientSeqCounter)
      ensures id in old(blocks) ==>
                && Present(old(blocks), EntryFor(old(rootOrder), old(childrenMap), parent))
                && blocks == PlaceByIndex(old(blocks), old(rootOrder), old(childrenMap), id, old(blocks)[id], parent, after)
                && pendingOps == old(pendingOps) +
                     [Batch(old(clientSeqCounter), [LocalMove(id, parent, after, blocks[id].position, old(blocks)[id].version)])]
                && clientSeqCounter == old(clientSeqCounter) + 1
    {
      if id !in blocks {
        return;
      }
      var existing := blocks[id];
      IndexedPlacementIsEdit(blocks, rootOrder, childrenMap, id, existing, parent, after);
      ghost var moved := PlaceByIndex(blocks, rootOrder, childrenMap, id, existing, parent, after);
      MovedIs(blocks, moved, EditMove(id, parent, after));
      var order := AllOrder();
      var position := ComputePosition(order, parent, after);
      assert moved == blocks[id := existing.(parent := parent, position := position, depth := LocalDepth(blocks, parent))];
      Put(id, existing.(parent := parent, position := position, depth := LocalDepth(blocks, parent)));
      var _ := EnqueueOps([LocalMove(id, parent, after, position, existing.version)]);
    }

    /** Leaves the index alone: neither parents nor positions change. */
    method UpdateAttrs(id: Id, attrs: Attrs)
      requires Valid()
      modifies this
      ensures Valid() && lastStreamId == old(lastStreamId) && rootOrder == old(rootOrder) && childrenMap == old(childrenMap)
      ensures id !in old(blocks) ==>
                blocks == old(blocks) && pendingOps == old(pendingOps) && clientSeqCounter == old(clientSeqCounter)
      ensures id in old(blocks) ==>
                && blocks == old(blocks)[id := old(blocks)[id].(content := SpreadAttrs(old(blocks)[id].content, attrs))]
                && pendingOps == old(pendingOps) + [Batch(old(clientSeqCounter), [LocalAttrs(id, attrs, old(blocks)[id].version)])]
                && clientSeqCounter == old(clientSeqCounter) + 1
    {
      if id !in blocks {
        return;
      }
      var b := blocks[id];
      IndexIgnoresContent(blocks, blocks[id := b.(content := SpreadAttrs(b.content, attrs))], rootOrder, childrenMap);
      blocks := blocks[id := b.(content := SpreadAttrs(b.content, attrs))];
      var _ := EnqueueOps([LocalAttrs(id, attrs, b.version)]);
    }

    /** Text edits are not queued: they travel as CRDT deltas. */
    method UpdateContent(id: Id, content: Content)
      requires Valid()
      modifies this`blocks
      ensures Valid()
      ensures blocks == if id in old(blocks) then old(blocks)[id := old(blocks)[id].(content := content)] else old(blocks)
    {
      if id !in blocks {
        return;
      }
      IndexIgnoresContent(blocks, blocks[id := blocks[id].(content := content)], rootOrder, childrenMap);
      blocks := blocks[id := blocks[id].(content := content)];
    }

    method ApplyRemoteOps(ops: seq<WireOp>, streamId: Option<string>)
      requires Valid()
      modifies this`blocks, this`rootOrder, this`childrenMap, this`lastStreamId
      ensures Valid() && blocks == ApplyRemote(old(blocks), ops)
      ensures lastStreamId == if streamId.Some? then streamId else old(lastStreamId)
    {
      var next := blocks;
      for i := 0 to |ops|
        invariant next == ApplyRemote(old(blocks), ops[..i])
        invariant lastStreamId == old(lastStreamId)
      {
        var op := ops[i];
        assert ops[..i + 1][..i] == ops[..i];
        match op.payload {
          case InsertPayload(typ, parent, position, _, content) =>
            next := next[op.id := Block(parent, position, LocalDepth(next, parent), typ, content, 1)];
          case DeletePayload =>
            next := RemoveAndPromote(next, op.id, None);
          case MovePayload(parent, position, _) =>
            if op.id in next {
              next := next[op.id := next[op.id].(parent := parent, position := position)];
            }
          case AttrsPayload(attrs) =>
            if op.id in next {
              var b := next[op.id];
              next := next[op.id := b.(content := SpreadAttrs(b.content, attrs), version := op.version + 1)];
            }
          case ContentPayload(content) =>
            if op.id in next {
              next := next[op.id := next[op.id].(content := content, version := op.version + 1)];
            }
        }
      }
      assert ops[..|ops|] == ops;
      blocks := next;
      rootOrder, childrenMap := RebuildIndex(next);
      lastStreamId := if streamId.Some? then streamId else lastStreamId;
    }

    /** Leaves the index alone: only versions change. */
    method HandleAck(clientSeq: nat, results: seq<(Id, nat)>)
      requires Valid()
      modifies this`blocks, this`pendingOps
      ensures Valid()
      ensures blocks == SetVersions(old(blocks), results) && pendingOps == Settle(old(pendingOps), clientSeq)
    {
      var next := blocks;
      for i := 0 to |results|
        invariant next == SetVersions(blocks, results[..i])
        invariant next.Keys == blocks.Keys
        invariant forall x :: x in blocks ==> next[x].parent == blocks[x].parent && next[x].position == blocks[x].position
      {
        var (id, version) := results[i];
        assert results[..i + 1][..i] == results[..i];
        if id in next {
          next := next[id := next[id].(version := version)];
        }
      }
      assert results[..|results|] == results;
      IndexIgnoresContent(blocks, next, rootOrder, childrenMap);
      SettleKeepsOrder(pendingOps, clientSeq, clientSeqCounter);
      pendingOps := Settle(pendingOps, clientSeq);
      blocks := next;
    }

    method HandleNack(clientSeq: nat, conflicts: seq<(Id, Option<Block>)>)
      requires Valid()
      modifies this`blocks, this`rootOrder, this`childrenMap, this`pendingOps
      ensures Valid()
      ensures blocks == Rebase(old(blocks), conflicts) && pendingOps == Settle(old(pendingOps), clientSeq)
    {
      var next := blocks;
      for i := 0 to |conflicts|
        invariant next == Rebase(blocks, conflicts[..i])
      {
        var (id, current) := conflicts[i];
        assert conflicts[..i + 1][..i] == conflicts[..i];
        if current.Some? {
          next := next[id := current.value];
        } else {
          next := next - {id};
        }
      }
      assert conflicts[..|conflicts|] == conflicts;
      SettleKeepsOrder(pendingOps, clientSeq, clientSeqCounter);
      pendingOps := Settle(pendingOps, clientSeq);
      blocks := next;
      rootOrder, childrenMap := RebuildIndex(next);
    }

    method SetLastStreamId(id: Option<string>)
      requires Valid()
      modifies this`lastStreamId
      ensures Valid() && lastStreamId == id
    {
      lastStreamId := id;
    }

    /** The batches resent when a connection opens: all unsettled ones, oldest first. */
    method DrainPending() returns (frames: seq<Batch>)
      ensures frames == pendingOps
    {
      frames := [];
      for i := 0 to |pendingOps|
        invariant frames == pendingOps[..i]
      {
        frames := frames + [pendingOps[i]];
      }
    }
  }

  /** Deletes the entry and hands its children on, visiting the map in any order. */
  method RemoveAndPromote(blocks: Blocks, id: Id, heir: Option<Id>) returns (next: Blocks)
    ensures next == WithoutBlock(blocks, id, heir)
  {
    next := blocks - {id};
    var todo := next.Keys;
    while todo != {}
      invariant next.Keys == blocks.Keys - {id} && todo <= next.Keys
      invariant forall x :: x in todo ==> next[x] == blocks[x]
      invariant forall x :: x in next && x !in todo ==> next[x] == WithoutBlock(blocks, id, heir)[x]
    {
      var x :| x in todo;
      if next[x].parent == Some(id) {
        next := next[x := next[x].(parent := heir)];
      }
      todo := todo - {x};
    }
  }
}
