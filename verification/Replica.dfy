/** A client that folds the server's stream into its block map follows the server's table. */
module Replica {
  import opened Wrappers
  import opened Ranks
  import opened Forest
  import opened Wire
  import opened ApplyProperties
  import opened BlockIndex
  import S = ApplyOps
  import C = BlockStore

  /**
   * What both sides agree on: where a block is, of what type, and with what content.
   * Attributes set to null are not shown: a patch removes them on the server and leaves
   * them on the client.
   */
  datatype View = View(parent: Option<Id>, position: Rank, typ: string, body: string, attrs: Attrs)

  function Shown(attrs: Attrs): Attrs {
    map k | k in attrs && attrs[k] != Null :: attrs[k]
  }

  function ViewOf(parent: Option<Id>, position: Rank, typ: string, content: Content): View {
    View(parent, position, typ, content.body, Shown(AttrsOf(content)))
  }

  function RowView(r: S.Row): View {
    ViewOf(r.parent, r.position, r.typ, r.content)
  }

  function BlockView(b: Block): View {
    ViewOf(b.parent, b.position, b.typ, b.content)
  }

  function ServerView(t: S.Table, doc: nat): map<Id, View> {
    map x | x in t && t[x].doc == doc :: RowView(t[x])
  }

  function ClientView(b: Blocks): map<Id, View> {
    map x | x in b :: BlockView(b[x])
  }

  /** `v` is part of `u`. */
  ghost predicate Submap(v: map<Id, View>, u: map<Id, View>) {
    forall x :: x in v ==> x in u && u[x] == v[x]
  }

  /** Every block the server still has is on the client with the same view; the client may have more. */
  ghost predicate Follows(t: S.Table, doc: nat, b: Blocks) {
    Submap(ServerView(t, doc), ClientView(b))
  }

  /** The operations streamed to the peers of `doc`. */
  ghost function Stream(t: S.Table, ops: seq<S.Posted>, doc: nat): seq<WireOp> {
    if ops == [] then []
    else
      var last, o := ops[|ops| - 1], S.OutcomeAt(t, ops, |ops| - 1);
      Stream(t, ops[..|ops| - 1], doc) + if last.doc == doc && o.Applied? then [o.op] else []
  }

  /** A subtree lies in one document. */
  lemma {:induction false} SubtreeStaysInDocument(t: S.Table, x: Id, id: Id, k: nat)
    requires TreeOk(t) && Climbs(S.ParentsOf(t), x, id, k)
    ensures id in t && t[x].doc == t[id].doc
    decreases k
  {
    if k > 0 {
      SubtreeStaysInDocument(t, t[x].parent.value, id, k - 1);
    }
  }

  /** Operations on another document leave the view of this one alone. */
  lemma OtherDocument(t: S.Table, doc: nat, op: S.Op, viewed: nat)
    requires TreeOk(t) && doc != viewed
    ensures ServerView(S.Step(t, doc, op).0, viewed) == ServerView(t, viewed)
  {
    if op.Delete? && S.Live(t, doc, op.id) {
      forall x | x in t && t[x].doc == viewed
        ensures !Under(S.ParentsOf(t), x, op.id)
      {
        if k: nat :| Climbs(S.ParentsOf(t), x, op.id, k) {
          SubtreeStaysInDocument(t, x, op.id, k);
        }
      }
    }
  }

  /** What an operation other than a delete does to a block's view; None when there is no such block. */
  function NewView(v: Option<View>, w: WireOp): Option<View> {
    match w.payload
    case InsertPayload(typ, parent, position, _, content) => Some(ViewOf(parent, position, typ, content))
    case DeletePayload => None
    case MovePayload(parent, position, _) => if v.Some? then Some(v.value.(parent := parent, position := position)) else None
    case AttrsPayload(attrs) => if v.Some? then Some(v.value.(attrs := Shown(v.value.attrs + attrs))) else None
    case ContentPayload(content) =>
      if v.Some? then Some(v.value.(body := content.body, attrs := Shown(AttrsOf(content)))) else None
  }

  function Viewed(v: map<Id, View>, w: WireOp): map<Id, View> {
    var next := NewView(if w.id in v then Some(v[w.id]) else None, w);
    if next.Some? then v[w.id := next.value] else v
  }

  /** Removing null keys and overlaying them show the same attributes. */
  lemma PatchShowsAsSpread(c: Content, patch: Attrs)
    ensures Shown(AttrsOf(S.MergeAttrs(c, patch))) == Shown(Shown(AttrsOf(c)) + patch)
    ensures Shown(AttrsOf(C.SpreadAttrs(c, patch))) == Shown(Shown(AttrsOf(c)) + patch)
  {
  }

  lemma ServerRowViewed(t: S.Table, doc: nat, op: S.Op)
    requires S.Step(t, doc, op).1.Applied? && !op.Delete?
    ensures var t', w := S.Step(t, doc, op).0, S.Step(t, doc, op).1.op;
            && w.id == op.id && !w.payload.DeletePayload? && op.id in t' && t'[op.id].doc == doc && t' == t[op.id := t'[op.id]]
            && (!op.Insert? ==> op.id in t && t[op.id].doc == doc)
            && NewView(if op.id in t then Some(RowView(t[op.id])) else None, w) == Some(RowView(t'[op.id]))
  {
    if op.UpdateAttrs? {
      PatchShowsAsSpread(t[op.id].content, op.patch);
    }
  }

  lemma ServerViewed(t: S.Table, doc: nat, op: S.Op)
    requires S.Step(t, doc, op).1.Applied? && !op.Delete?
    ensures ServerView(S.Step(t, doc, op).0, doc) == Viewed(ServerView(t, doc), S.Step(t, doc, op).1.op)
    ensures !op.Insert? ==> op.id in ServerView(t, doc)
  {
    ServerRowViewed(t, doc, op);
    var t' := S.Step(t, doc, op).0;
    assert ServerView(t', doc) == ServerView(t, doc)[op.id := RowView(t'[op.id])];
  }

  lemma ClientViewed(b: Blocks, w: WireOp)
    requires !w.payload.DeletePayload?
    ensures ClientView(C.RemoteStep(b, w)) == Viewed(ClientView(b), w)
  {
    if w.payload.AttrsPayload? && w.id in b {
      PatchShowsAsSpread(b[w.id].content, w.payload.attrs);
    }
    var b' := C.RemoteStep(b, w);
    if w.id in b' {
      assert ClientView(b') == ClientView(b)[w.id := BlockView(b'[w.id])];
    }
  }

  /** One streamed operation keeps the client following, although a delete cascades here and promotes there. */
  lemma StepFollows(t: S.Table, doc: nat, op: S.Op, b: Blocks)
    requires TreeOk(t) && Follows(t, doc, b) && S.Step(t, doc, op).1.Applied?
    ensures Follows(S.Step(t, doc, op).0, doc, C.RemoteStep(b, S.Step(t, doc, op).1.op))
  {
    if op.Delete? {
      DeleteFollows(t, doc, op, b);
    } else {
      ServerRowViewed(t, doc, op);
      ServerViewed(t, doc, op);
      ClientViewed(b, S.Step(t, doc, op).1.op);
      SubmapViewed(ServerView(t, doc), ClientView(b), S.Step(t, doc, op).1.op);
    }
  }

  lemma SubmapViewed(v: map<Id, View>, u: map<Id, View>, w: WireOp)
    requires Submap(v, u) && (w.payload.InsertPayload? || w.id in v)
    ensures Submap(Viewed(v, w), Viewed(u, w))
  {
  }

  lemma DeleteFollows(t: S.Table, doc: nat, op: S.Op, b: Blocks)
    requires TreeOk(t) && Follows(t, doc, b) && S.Step(t, doc, op).1.Applied? && op.Delete?
    ensures Follows(S.Step(t, doc, op).0, doc, C.RemoteStep(b, S.Step(t, doc, op).1.op))
  {
    var t' := S.Step(t, doc, op).0;
    var b' := C.WithoutBlock(b, op.id, None);
    forall x | x in ServerView(t', doc)
      ensures x in b' && ClientView(b')[x] == ServerView(t', doc)[x]
    {
      SurvivorIsNoChild(t, doc, op, x);
      assert x in ServerView(t, doc) && ClientView(b)[x] == ServerView(t, doc)[x];
      assert b'[x] == b[x];
    }
  }

  lemma SurvivorIsNoChild(t: S.Table, doc: nat, op: S.Op, x: Id)
    requires TreeOk(t) && op.Delete? && S.Step(t, doc, op).1.Applied?
    requires S.Live(S.Step(t, doc, op).0, doc, x)
    ensures x != op.id && t[x].parent != Some(op.id)
  {
    var ps := S.ParentsOf(t);
    if S.Live(t, doc, op.id) {
      UnderSelf(ps, op.id);
      if t[x].parent == Some(op.id) {
        UnderParent(ps, x, op.id);
      }
    }
  }

  /** The operation is a delete that hits a block with another block below it. */
  ghost predicate DeletesSubtree(t: S.Table, doc: nat, op: S.Op) {
    op.Delete? && S.Live(t, doc, op.id) && !NoOtherChild(S.ParentsOf(t), op.id)
  }

  /** From equal views, an applied operation leads to equal views exactly when it deletes no subtree. */
  lemma StepEqualIff(t: S.Table, doc: nat, op: S.Op, b: Blocks)
    requires TreeOk(t) && ServerView(t, doc) == ClientView(b) && S.Step(t, doc, op).1.Applied?
    ensures !DeletesSubtree(t, doc, op) <==>
              ServerView(S.Step(t, doc, op).0, doc) == ClientView(C.RemoteStep(b, S.Step(t, doc, op).1.op))
  {
    var t' := S.Step(t, doc, op).0;
    var b' := C.RemoteStep(b, S.Step(t, doc, op).1.op);
    if op.Delete? {
      if DeletesSubtree(t, doc, op) {
        var c :| c in t && c != op.id && t[c].parent == Some(op.id);
        assert S.ParentOk(t, t[c].doc, t[c].parent);
        assert c in ServerView(t, doc) && c in ClientView(b);
        UnderSelf(S.ParentsOf(t), op.id);
        UnderParent(S.ParentsOf(t), c, op.id);
        assert c in ClientView(b') && c !in ServerView(t', doc);
      } else {
        LeafDeleteEqual(t, doc, op, b);
      }
    } else {
      UpdateEqual(t, doc, op, b);
    }
  }

  lemma UpdateEqual(t: S.Table, doc: nat, op: S.Op, b: Blocks)
    requires ServerView(t, doc) == ClientView(b) && S.Step(t, doc, op).1.Applied? && !op.Delete?
    ensures ServerView(S.Step(t, doc, op).0, doc) == ClientView(C.RemoteStep(b, S.Step(t, doc, op).1.op))
  {
    ServerViewed(t, doc, op);
    ClientViewed(b, S.Step(t, doc, op).1.op);
  }

  /** A delete that hits no other block's parent takes just its target off the server's view. */
  lemma LeafDeleteOnServer(t: S.Table, doc: nat, op: S.Op)
    requires TreeOk(t) && op.Delete? && S.Step(t, doc, op).1.Applied? && !DeletesSubtree(t, doc, op)
    ensures ServerView(S.Step(t, doc, op).0, doc) == ServerView(t, doc) - {op.id}
  {
    var ps := S.ParentsOf(t);
    if S.Live(t, doc, op.id) {
      PruneIsSingletonIff(ps, op.id);
      assert forall x :: x in S.Cascade(t, op.id) <==> x in Prune(ps, op.id);
    }
  }

  lemma LeafDeleteOnClient(b: Blocks, id: Id)
    requires forall x :: x in b && x != id ==> b[x].parent != Some(id)
    ensures ClientView(C.WithoutBlock(b, id, None)) == ClientView(b) - {id}
  {
  }

  lemma LeafDeleteEqual(t: S.Table, doc: nat, op: S.Op, b: Blocks)
    requires TreeOk(t) && ServerView(t, doc) == ClientView(b)
    requires op.Delete? && S.Step(t, doc, op).1.Applied? && !DeletesSubtree(t, doc, op)
    ensures ServerView(S.Step(t, doc, op).0, doc) == ClientView(C.WithoutBlock(b, op.id, None))
  {
    LeafDeleteOnServer(t, doc, op);
    forall x | x in b && x != op.id
      ensures b[x].parent != Some(op.id)
    {
      assert x in ClientView(b) && ServerView(t, doc)[x] == ClientView(b)[x];
      assert S.ParentOk(t, t[x].doc, t[x].parent);
      assert S.ParentsOf(t)[x] == b[x].parent;
    }
    LeafDeleteOnClient(b, op.id);
  }

  /** The client after one more operation of the run. */
  lemma StreamNext(t: S.Table, ops: seq<S.Posted>, doc: nat, b: Blocks)
    requires ops != []
    ensures var n := |ops| - 1;
            var r, o := C.ApplyRemote(b, Stream(t, ops[..n], doc)), S.Step(S.Run(t, ops[..n]), ops[n].doc, ops[n].op).1;
            C.ApplyRemote(b, Stream(t, ops, doc)) == if ops[n].doc == doc && o.Applied? then C.RemoteStep(r, o.op) else r
  {
    var n := |ops| - 1;
    var before, o := Stream(t, ops[..n], doc), S.OutcomeAt(t, ops, n);
    if ops[n].doc == doc && o.Applied? {
      assert (before + [o.op])[..|before|] == before;
    } else {
      assert before + [] == before;
    }
  }

  /** On every run, folding the stream keeps the client following the server. */
  lemma {:induction false} ReplicaFollows(t: S.Table, ops: seq<S.Posted>, doc: nat, b: Blocks)
    requires TreeOk(t) && Follows(t, doc, b)
    ensures TreeOk(S.Run(t, ops))
    ensures Follows(S.Run(t, ops), doc, C.ApplyRemote(b, Stream(t, ops, doc)))
  {
    if ops != [] {
      var last, before := ops[|ops| - 1], ops[..|ops| - 1];
      ReplicaFollows(t, before, doc, b);
      StreamNext(t, ops, doc, b);
      OneMoreFollows(S.Run(t, before), last.doc, last.op, doc, C.ApplyRemote(b, Stream(t, before, doc)));
    }
  }

  lemma OneMoreFollows(t: S.Table, doc: nat, op: S.Op, viewed: nat, b: Blocks)
    requires TreeOk(t) && Follows(t, viewed, b)
    ensures var o := S.Step(t, doc, op).1;
            && TreeOk(S.Step(t, doc, op).0)
            && Follows(S.Step(t, doc, op).0, viewed, if doc == viewed && o.Applied? then C.RemoteStep(b, o.op) else b)
  {
    StepKeepsTree(t, doc, op);
    if doc != viewed {
      OtherDocument(t, doc, op, viewed);
    } else if S.Step(t, doc, op).1.Applied? {
      StepFollows(t, doc, op, b);
    } else {
      ConflictChangesNothing(t, doc, op);
    }
  }

  /** No applied delete on `doc` hits a block with another block below it. */
  ghost predicate OnlyLeafDeletes(t: S.Table, ops: seq<S.Posted>, doc: nat) {
    forall i: nat :: i < |ops| && ops[i].doc == doc && S.OutcomeAt(t, ops, i).Applied? ==>
      !DeletesSubtree(S.Run(t, ops[..i]), doc, ops[i].op)
  }

  lemma PrefixDeletesLeaves(t: S.Table, ops: seq<S.Posted>, doc: nat, n: nat)
    requires n <= |ops| && OnlyLeafDeletes(t, ops, doc)
    ensures OnlyLeafDeletes(t, ops[..n], doc)
  {
    forall i: nat | i < n && ops[..n][i].doc == doc && S.OutcomeAt(t, ops[..n], i).Applied?
      ensures !DeletesSubtree(S.Run(t, ops[..n][..i]), doc, ops[..n][i].op)
    {
      OutcomeOfPrefix(t, ops, n, i);
    }
  }

  lemma OneMoreEqual(t: S.Table, doc: nat, op: S.Op, viewed: nat, b: Blocks)
    requires TreeOk(t) && ServerView(t, viewed) == ClientView(b)
    requires doc == viewed && S.Step(t, doc, op).1.Applied? ==> !DeletesSubtree(t, doc, op)
    ensures var o := S.Step(t, doc, op).1;
            ServerView(S.Step(t, doc, op).0, viewed) == ClientView(if doc == viewed && o.Applied? then C.RemoteStep(b, o.op) else b)
  {
    if doc != viewed {
      OtherDocument(t, doc, op, viewed);
    } else if S.Step(t, doc, op).1.Applied? {
      StepEqualIff(t, doc, op, b);
    } else {
      ConflictChangesNothing(t, doc, op);
    }
  }

  /** On every run whose deletes hit leaves or nothing, both views stay equal. */
  lemma {:induction false} ReplicaEqual(t: S.Table, ops: seq<S.Posted>, doc: nat, b: Blocks)
    requires TreeOk(t) && ServerView(t, doc) == ClientView(b) && OnlyLeafDeletes(t, ops, doc)
    ensures TreeOk(S.Run(t, ops))
    ensures ServerView(S.Run(t, ops), doc) == ClientView(C.ApplyRemote(b, Stream(t, ops, doc)))
  {
    if ops != [] {
      var n := |ops| - 1;
      PrefixDeletesLeaves(t, ops, doc, n);
      ReplicaEqual(t, ops[..n], doc, b);
      StreamNext(t, ops, doc, b);
      assert S.OutcomeAt(t, ops, n) == S.Step(S.Run(t, ops[..n]), ops[n].doc, ops[n].op).1;
      StepKeepsTree(S.Run(t, ops[..n]), ops[n].doc, ops[n].op);
      OneMoreEqual(S.Run(t, ops[..n]), ops[n].doc, ops[n].op, doc, C.ApplyRemote(b, Stream(t, ops[..n], doc)));
    }
  }

  lemma OutcomesNext(t: S.Table, posted: seq<S.Posted>)
    requires posted != []
    ensures var n := |posted| - 1; S.Outcomes(t, posted) == S.Outcomes(t, posted[..n]) + [S.OutcomeAt(t, posted, n)]
  {
    var n := |posted| - 1;
    assert forall i: nat :: i < n ==> posted[..n][..i] == posted[..i];
  }

  lemma {:induction false} BatchIsStream(t: S.Table, posted: seq<S.Posted>, doc: nat)
    requires forall i :: 0 <= i < |posted| ==> posted[i].doc == doc
    ensures Stream(t, posted, doc) == S.AppliedOps(S.Outcomes(t, posted))
  {
    if posted != [] {
      var n := |posted| - 1;
      BatchIsStream(t, posted[..n], doc);
      OutcomesNext(t, posted);
      S.AppliedNext(S.Outcomes(t, posted[..n]), S.OutcomeAt(t, posted, n));
    }
  }

  /** What one POST to /operations streams brings a following client up to date with the new table. */
  lemma BatchFollows(t: S.Table, posted: seq<S.Posted>, doc: nat, b: Blocks)
    requires TreeOk(t) && Follows(t, doc, b)
    requires forall i :: 0 <= i < |posted| ==> posted[i].doc == doc
    ensures Follows(S.Run(t, posted), doc, C.ApplyRemote(b, S.AppliedOps(S.Outcomes(t, posted))))
  {
    BatchIsStream(t, posted, doc);
    ReplicaFollows(t, posted, doc, b);
  }

  // ------------------------------------------------------------------------- nacks

  /** What the last conflict for `id` carries, if there is one. */
  function LastConflict(conflicts: seq<(Id, Option<Block>)>, id: Id): Option<Option<Block>> {
    if conflicts == [] then None
    else
      var (x, current) := conflicts[|conflicts| - 1];
      if x == id then Some(current) else LastConflict(conflicts[..|conflicts| - 1], id)
  }

  lemma {:induction false} RebasedBlock(b: Blocks, conflicts: seq<(Id, Option<Block>)>, id: Id)
    ensures var r, c := C.Rebase(b, conflicts), LastConflict(conflicts, id);
            if c.None? then (id in r <==> id in b) && (id in b ==> r[id] == b[id])
            else (id in r <==> c.value.Some?) && (id in r ==> r[id] == c.value.value)
  {
    if conflicts != [] {
      RebasedBlock(b, conflicts[..|conflicts| - 1], id);
    }
  }

  /** The conflict reports the block as the server has it. */
  ghost predicate Reports(t: S.Table, doc: nat, id: Id, current: Option<Block>) {
    S.Live(t, doc, id) ==> current.Some? && BlockView(current.value) == RowView(t[id])
  }

  ghost predicate AllReported(t: S.Table, doc: nat, conflicts: seq<(Id, Option<Block>)>) {
    forall id :: LastConflict(conflicts, id).Some? ==> Reports(t, doc, id, LastConflict(conflicts, id).value)
  }

  /**
   * A following client still follows after a nack exactly if every block it names, and
   * the server has, is carried along as the server has it.
   */
  lemma NackFollowsIff(t: S.Table, doc: nat, b: Blocks, conflicts: seq<(Id, Option<Block>)>)
    requires Follows(t, doc, b)
    ensures Follows(t, doc, C.Rebase(b, conflicts)) <==> AllReported(t, doc, conflicts)
  {
    var r := C.Rebase(b, conflicts);
    if Follows(t, doc, r) {
      forall id | LastConflict(conflicts, id).Some?
        ensures Reports(t, doc, id, LastConflict(conflicts, id).value)
      {
        RebasedBlock(b, conflicts, id);
        assert S.Live(t, doc, id) ==> id in ServerView(t, doc);
      }
    }
    if AllReported(t, doc, conflicts) {
      forall id | id in ServerView(t, doc)
        ensures id in ClientView(r) && ClientView(r)[id] == ServerView(t, doc)[id]
      {
        RebasedBlock(b, conflicts, id);
        if LastConflict(conflicts, id).Some? {
          assert Reports(t, doc, id, LastConflict(conflicts, id).value);
        }
        assert S.Live(t, doc, id) && id in ClientView(b) && ClientView(b)[id] == ServerView(t, doc)[id];
      }
    }
  }

  /** The nacks an instance sends carry no block: the client then drops its own, and follows on exactly if the server has none. */
  lemma BareNackFollowsIff(t: S.Table, doc: nat, b: Blocks, id: Id)
    requires Follows(t, doc, b)
    ensures Follows(t, doc, C.Rebase(b, [(id, None)])) <==> !S.Live(t, doc, id)
  {
    var nack: seq<(Id, Option<Block>)> := [(id, None)];
    assert nack[..0] == [];
    NackFollowsIff(t, doc, b, nack);
    assert forall x :: LastConflict(nack, x) == if x == id then Some(None) else None;
  }
}
