/**
 * Streamed operations that reach a client in another order than they were committed: the
 * append to the stream runs after the commit, apps/api/app/routes/blocks.py.
 */
module Reordering {
  import opened Wrappers
  import opened Forest
  import opened Wire
  import opened ApplyProperties
  import opened BlockIndex
  import opened Replica
  import S = ApplyOps
  import C = BlockStore

  /** The operations on one block, in order. */
  function OpsOn(ws: seq<WireOp>, id: Id): seq<WireOp> {
    if ws == [] then []
    else
      var last := ws[|ws| - 1];
      OpsOn(ws[..|ws| - 1], id) + if last.id == id then [last] else []
  }

  /** What they alone make of the block. */
  function Folded(v: Option<View>, ws: seq<WireOp>): Option<View> {
    if ws == [] then v else NewView(Folded(v, ws[..|ws| - 1]), ws[|ws| - 1])
  }

  predicate HasDelete(ws: seq<WireOp>, id: Id) {
    exists i :: 0 <= i < |ws| && ws[i].id == id && ws[i].payload.DeletePayload?
  }

  lemma FoldedNext(v: Option<View>, ws: seq<WireOp>, w: WireOp)
    ensures Folded(v, ws + [w]) == NewView(Folded(v, ws), w)
  {
    assert (ws + [w])[..|ws|] == ws;
  }

  lemma OpsOnNext(ws: seq<WireOp>, w: WireOp, id: Id)
    ensures OpsOn(ws + [w], id) == OpsOn(ws, id) + if w.id == id then [w] else []
  {
    assert (ws + [w])[..|ws|] == ws;
  }

  lemma {:induction false} DeleteIsOnBlock(ws: seq<WireOp>, id: Id)
    ensures HasDelete(ws, id) <==> exists i :: 0 <= i < |OpsOn(ws, id)| && OpsOn(ws, id)[i].payload.DeletePayload?
  {
    if ws != [] {
      var before, last := ws[..|ws| - 1], ws[|ws| - 1];
      DeleteIsOnBlock(before, id);
      var l := OpsOn(before, id);
      if i :| 0 <= i < |ws| && ws[i].id == id && ws[i].payload.DeletePayload? {
        if i < |before| {
          assert before[i] == ws[i];
          var j :| 0 <= j < |l| && l[j].payload.DeletePayload?;
          assert OpsOn(ws, id)[j] == l[j];
        } else {
          assert OpsOn(ws, id)[|l|] == last;
        }
      }
      if j :| 0 <= j < |OpsOn(ws, id)| && OpsOn(ws, id)[j].payload.DeletePayload? {
        if j < |l| {
          assert l[j] == OpsOn(ws, id)[j];
          var i :| 0 <= i < |before| && before[i].id == id && before[i].payload.DeletePayload?;
          assert ws[i] == before[i];
        } else {
          assert ws[|ws| - 1] == last;
        }
      }
    }
  }

  function ViewAt(b: map<Id, View>, id: Id): Option<View> {
    if id in b then Some(b[id]) else None
  }

  /** `shown` is `own`, except that it may have been promoted from a parent that was deleted. */
  ghost predicate UpToPromotion(shown: Option<View>, own: Option<View>, ws: seq<WireOp>) {
    if shown.None? then own.None?
    else
      && own.Some? && shown.value == own.value.(parent := shown.value.parent)
      && (shown.value.parent != own.value.parent ==> own.value.parent.Some? && HasDelete(ws, own.value.parent.value))
  }

  lemma DeleteStays(ws: seq<WireOp>, w: WireOp, id: Id)
    ensures HasDelete(ws, id) ==> HasDelete(ws + [w], id)
    ensures w.id == id && w.payload.DeletePayload? ==> HasDelete(ws + [w], id)
  {
    if i :| 0 <= i < |ws| && ws[i].id == id && ws[i].payload.DeletePayload? {
      assert (ws + [w])[i] == ws[i];
    }
    assert (ws + [w])[|ws|] == w;
  }

  /** One streamed operation as seen from a block. */
  lemma StepFolds(b: Blocks, w: WireOp, id: Id, own: Option<View>, ws: seq<WireOp>)
    requires UpToPromotion(ViewAt(ClientView(b), id), own, ws)
    ensures UpToPromotion(ViewAt(ClientView(C.RemoteStep(b, w)), id), if w.id == id then NewView(own, w) else own, ws + [w])
  {
    if own.Some? && own.value.parent.Some? {
      DeleteStays(ws, w, own.value.parent.value);
    }
    if !w.payload.DeletePayload? {
      ClientViewed(b, w);
    }
  }

  /** What a client shows of a block is the fold of the operations on it, up to promotions. */
  lemma {:induction false} ClientFolds(b: Blocks, ws: seq<WireOp>, id: Id)
    ensures UpToPromotion(ViewAt(ClientView(C.ApplyRemote(b, ws)), id), Folded(ViewAt(ClientView(b), id), OpsOn(ws, id)), ws)
  {
    if ws != [] {
      var before, w := ws[..|ws| - 1], ws[|ws| - 1];
      ClientFolds(b, before, id);
      StepFolds(C.ApplyRemote(b, before), w, id, Folded(ViewAt(ClientView(b), id), OpsOn(before, id)), before);
      assert before + [w] == ws;
      OneMoreFolded(ViewAt(ClientView(b), id), before, w, id);
    }
  }

  lemma OneMoreFolded(v: Option<View>, ws: seq<WireOp>, w: WireOp, id: Id)
    ensures var own := Folded(v, OpsOn(ws, id)); Folded(v, OpsOn(ws + [w], id)) == if w.id == id then NewView(own, w) else own
  {
    OpsOnNext(ws, w, id);
    if w.id == id {
      FoldedNext(v, OpsOn(ws, id), w);
    } else {
      assert OpsOn(ws, id) + [] == OpsOn(ws, id);
    }
  }

  // ------------------------------------------------------------------- the server

  /** One operation as seen from a block the server has afterwards. */
  lemma ServerStepFolds(t: S.Table, doc: nat, op: S.Op, id: Id, own: Option<View>)
    requires TreeOk(t) && S.Step(t, doc, op).1.Applied? && S.Live(S.Step(t, doc, op).0, doc, id)
    requires S.Live(t, doc, id) ==> own == Some(RowView(t[id]))
    ensures var w := S.Step(t, doc, op).1.op;
            Some(RowView(S.Step(t, doc, op).0[id])) == if w.id == id then NewView(own, w) else own
  {
    if op.Delete? {
      SurvivorIsNoChild(t, doc, op, id);
    } else {
      ServerRowViewed(t, doc, op);
    }
  }

  /** What the server has of a block is the fold of the operations on it: it promotes nothing. */
  lemma {:induction false} ServerFolds(t: S.Table, ops: seq<S.Posted>, doc: nat, id: Id, v: Option<View>)
    requires TreeOk(t) && S.Live(S.Run(t, ops), doc, id) && (S.Live(t, doc, id) ==> v == Some(RowView(t[id])))
    ensures Some(RowView(S.Run(t, ops)[id])) == Folded(v, OpsOn(Stream(t, ops, doc), id))
  {
    if ops != [] {
      var n := |ops| - 1;
      var before, last, o := ops[..n], ops[n], S.OutcomeAt(t, ops, n);
      RunKeepsTree(t, before);
      var s, ws := S.Run(t, before), Stream(t, before, doc);
      if S.Live(s, doc, id) {
        ServerFolds(t, before, doc, id, v);
      }
      if last.doc == doc && o.Applied? {
        ServerStepFolds(s, doc, last.op, id, Folded(v, OpsOn(ws, id)));
        OneMoreFolded(v, ws, o.op, id);
      } else {
        assert ws + [] == ws;
        ElsewhereUnchanged(s, last.doc, last.op, doc, id);
      }
    }
  }

  lemma {:induction false} RunKeepsTree(t: S.Table, ops: seq<S.Posted>)
    requires TreeOk(t)
    ensures TreeOk(S.Run(t, ops))
  {
    if ops != [] {
      RunKeepsTree(t, ops[..|ops| - 1]);
      StepKeepsTree(S.Run(t, ops[..|ops| - 1]), ops[|ops| - 1].doc, ops[|ops| - 1].op);
    }
  }

  lemma ElsewhereUnchanged(t: S.Table, doc: nat, op: S.Op, viewed: nat, id: Id)
    requires TreeOk(t) && (doc != viewed || S.Step(t, doc, op).1.Conflict?) && S.Live(S.Step(t, doc, op).0, viewed, id)
    ensures S.Live(t, viewed, id) && RowView(S.Step(t, doc, op).0[id]) == RowView(t[id])
  {
    if doc != viewed {
      OtherDocument(t, doc, op, viewed);
      assert id in ServerView(S.Step(t, doc, op).0, viewed);
    } else {
      ConflictChangesNothing(t, doc, op);
    }
  }

  /** A fold that ends with a block has started it, or goes on from one that was there. */
  lemma {:induction false} FoldIgnoresStart(v: Option<View>, ws: seq<WireOp>)
    requires Folded(None, ws).Some?
    ensures Folded(v, ws) == Folded(None, ws)
  {
    if ws != [] && !ws[|ws| - 1].payload.InsertPayload? {
      FoldIgnoresStart(v, ws[..|ws| - 1]);
    }
  }

  // -------------------------------------------------------------------- reordering

  /** No block is inserted again after it was deleted. */
  ghost predicate NoneReinserted(t: S.Table, ops: seq<S.Posted>, doc: nat) {
    forall i: nat, j: nat :: i < j && IsApplied(t, ops, doc, i) && IsApplied(t, ops, doc, j) ==>
      ops[i].op.Delete? && ops[j].op.Insert? ==> ops[i].op.id != ops[j].op.id
  }

  ghost predicate IsApplied(t: S.Table, ops: seq<S.Posted>, doc: nat, i: nat) {
    i < |ops| && ops[i].doc == doc && S.OutcomeAt(t, ops, i).Applied?
  }

  lemma PrefixReinserts(t: S.Table, ops: seq<S.Posted>, doc: nat, n: nat)
    requires n <= |ops| && NoneReinserted(t, ops, doc)
    ensures NoneReinserted(t, ops[..n], doc)
  {
    forall i: nat, j: nat | i < j < n && IsApplied(t, ops[..n], doc, i) && IsApplied(t, ops[..n], doc, j) &&
        ops[..n][i].op.Delete? && ops[..n][j].op.Insert?
      ensures ops[..n][i].op.id != ops[..n][j].op.id
    {
      OutcomeOfPrefix(t, ops, n, i);
      OutcomeOfPrefix(t, ops, n, j);
      assert IsApplied(t, ops, doc, i) && IsApplied(t, ops, doc, j);
    }
  }

  lemma {:induction false} DeleteIsPosted(t: S.Table, ops: seq<S.Posted>, doc: nat, id: Id) returns (i: nat)
    requires HasDelete(Stream(t, ops, doc), id)
    ensures IsApplied(t, ops, doc, i) && ops[i].op.Delete? && ops[i].op.id == id
  {
    var n := |ops| - 1;
    var ws, before := Stream(t, ops, doc), Stream(t, ops[..n], doc);
    var k :| 0 <= k < |ws| && ws[k].id == id && ws[k].payload.DeletePayload?;
    if k < |before| {
      assert before[k] == ws[k];
      i := DeleteIsPosted(t, ops[..n], doc, id);
      OutcomeOfPrefix(t, ops, n, i);
    } else {
      i := n;
    }
  }

  /** A deleted block is gone for good. */
  lemma {:induction false} DeletedIsGone(t: S.Table, ops: seq<S.Posted>, doc: nat, i: nat)
    requires TreeOk(t) && NoneReinserted(t, ops, doc) && IsApplied(t, ops, doc, i) && ops[i].op.Delete?
    ensures !S.Live(S.Run(t, ops), doc, ops[i].op.id)
  {
    var n, id := |ops| - 1, ops[i].op.id;
    var before, last := ops[..n], ops[n];
    var s := S.Run(t, before);
    RunKeepsTree(t, before);
    if S.Live(S.Run(t, ops), doc, id) {
      if i == n {
        SurvivorIsNoChild(s, doc, last.op, id);
      } else {
        PrefixReinserts(t, ops, doc, n);
        OutcomeOfPrefix(t, ops, n, i);
        assert IsApplied(t, before, doc, i);
        DeletedIsGone(t, before, doc, i);
        if last.doc == doc && S.OutcomeAt(t, ops, n).Applied? {
          assert IsApplied(t, ops, doc, n);
          NotLiveStays(s, doc, last.op, id);
        } else {
          ElsewhereUnchanged(s, last.doc, last.op, doc, id);
        }
      }
    }
  }

  lemma NotLiveStays(t: S.Table, doc: nat, op: S.Op, id: Id)
    requires S.Step(t, doc, op).1.Applied? && !S.Live(t, doc, id) && !(op.Insert? && op.id == id)
    ensures !S.Live(S.Step(t, doc, op).0, doc, id)
  {
    if !op.Delete? {
      ServerRowViewed(t, doc, op);
    }
  }

  /**
   * A client that gets the stream in any other order follows all the same, as long as the
   * operations on each single block keep theirs and no block comes back after its delete.
   */
  lemma ReorderedFollows(t: S.Table, ops: seq<S.Posted>, doc: nat, b: Blocks, ws: seq<WireOp>)
    requires TreeOk(t) && Follows(t, doc, b) && NoneReinserted(t, ops, doc)
    requires forall id :: OpsOn(ws, id) == OpsOn(Stream(t, ops, doc), id)
    ensures Follows(S.Run(t, ops), doc, C.ApplyRemote(b, ws))
  {
    RunKeepsTree(t, ops);
    forall id | S.Live(S.Run(t, ops), doc, id)
      ensures ViewAt(ClientView(C.ApplyRemote(b, ws)), id) == Some(RowView(S.Run(t, ops)[id]))
    {
      ReorderedBlock(t, ops, doc, b, ws, id);
    }
    var view := ClientView(C.ApplyRemote(b, ws));
    forall id | id in ServerView(S.Run(t, ops), doc)
      ensures id in view && view[id] == ServerView(S.Run(t, ops), doc)[id]
    {
      assert S.Live(S.Run(t, ops), doc, id) && ViewAt(view, id) == Some(RowView(S.Run(t, ops)[id]));
    }
  }

  lemma ReorderedBlock(t: S.Table, ops: seq<S.Posted>, doc: nat, b: Blocks, ws: seq<WireOp>, id: Id)
    requires TreeOk(t) && TreeOk(S.Run(t, ops)) && Follows(t, doc, b) && NoneReinserted(t, ops, doc)
    requires forall x :: OpsOn(ws, x) == OpsOn(Stream(t, ops, doc), x)
    requires S.Live(S.Run(t, ops), doc, id)
    ensures ViewAt(ClientView(C.ApplyRemote(b, ws)), id) == Some(RowView(S.Run(t, ops)[id]))
  {
    var end, v, l := S.Run(t, ops), ViewAt(ClientView(b), id), OpsOn(ws, id);
    SameFold(t, ops, doc, b, id);
    ClientFolds(b, ws, id);
    var p := end[id].parent;
    if p.Some? {
      assert S.ParentOk(end, end[id].doc, p);
      if HasDelete(ws, p.value) {
        SameDeletes(ws, Stream(t, ops, doc), p.value);
        var i := DeleteIsPosted(t, ops, doc, p.value);
        DeletedIsGone(t, ops, doc, i);
      }
    }
  }

  lemma SameDeletes(a: seq<WireOp>, b: seq<WireOp>, id: Id)
    requires OpsOn(a, id) == OpsOn(b, id)
    ensures HasDelete(a, id) <==> HasDelete(b, id)
  {
    DeleteIsOnBlock(a, id);
    DeleteIsOnBlock(b, id);
  }

  /** The server's block, folded from what the client started with. */
  lemma SameFold(t: S.Table, ops: seq<S.Posted>, doc: nat, b: Blocks, id: Id)
    requires TreeOk(t) && Follows(t, doc, b) && S.Live(S.Run(t, ops), doc, id)
    ensures Folded(ViewAt(ClientView(b), id), OpsOn(Stream(t, ops, doc), id)) == Some(RowView(S.Run(t, ops)[id]))
  {
    if S.Live(t, doc, id) {
      assert id in ServerView(t, doc);
      ServerFolds(t, ops, doc, id, ViewAt(ClientView(b), id));
    } else {
      ServerFolds(t, ops, doc, id, None);
      FoldIgnoresStart(ViewAt(ClientView(b), id), OpsOn(Stream(t, ops, doc), id));
    }
  }

  // ------------------------------------------------------------- one block's order

  /** Two moves of one block that change places in the stream: the client follows exactly if they went to the same place. */
  lemma ReversedMovesIff(t: S.Table, doc: nat, first: S.Op, second: S.Op, b: Blocks)
    requires TreeOk(t) && Follows(t, doc, b) && first.Move? && second.Move? && first.id == second.id
    requires S.Step(t, doc, first).1.Applied? && S.Step(S.Step(t, doc, first).0, doc, second).1.Applied?
    ensures var mid := S.Step(t, doc, first);
            var end := S.Step(mid.0, doc, second);
            var w, u := mid.1.op, end.1.op;
            && w.payload.MovePayload? && u.payload.MovePayload?
            && (Follows(end.0, doc, C.RemoteStep(C.RemoteStep(b, u), w)) <==>
                  w.payload.parent == u.payload.parent && w.payload.position == u.payload.position)
  {
    var mid := S.Step(t, doc, first);
    var end := S.Step(mid.0, doc, second);
    MovedRow(t, doc, first);
    MovedRow(mid.0, doc, second);
    StepKeepsTree(t, doc, first);
    StepFollows(t, doc, first, b);
    StepFollows(mid.0, doc, second, C.RemoteStep(b, mid.1.op));
    assert first.id in ServerView(t, doc);
    SwappedMovesIff(end.0, doc, b, mid.1.op, end.1.op);
  }

  lemma MovedRow(t: S.Table, doc: nat, op: S.Op)
    requires op.Move? && S.Step(t, doc, op).1.Applied?
    ensures var t', w := S.Step(t, doc, op).0, S.Step(t, doc, op).1.op;
            && w.id == op.id && w.payload.MovePayload? && S.Live(t, doc, op.id) && S.Live(t', doc, op.id)
            && t'[op.id].parent == w.payload.parent && t'[op.id].position == w.payload.position
  {
  }

  /** A client that follows after `w` and `u` follows after `u` and `w` exactly if both move the block to the same place. */
  lemma SwappedMovesIff(t: S.Table, doc: nat, b: Blocks, w: WireOp, u: WireOp)
    requires w.payload.MovePayload? && u.payload.MovePayload? && w.id == u.id && w.id in b && S.Live(t, doc, w.id)
    requires Follows(t, doc, C.RemoteStep(C.RemoteStep(b, w), u))
    requires t[w.id].parent == u.payload.parent && t[w.id].position == u.payload.position
    ensures Follows(t, doc, C.RemoteStep(C.RemoteStep(b, u), w)) <==>
              w.payload.parent == u.payload.parent && w.payload.position == u.payload.position
  {
    var id := w.id;
    var swapped := C.RemoteStep(C.RemoteStep(b, u), w);
    assert C.RemoteStep(C.RemoteStep(b, w), u) == b[id := b[id].(parent := u.payload.parent, position := u.payload.position)];
    assert swapped == b[id := b[id].(parent := w.payload.parent, position := w.payload.position)];
    assert id in ServerView(t, doc) && ServerView(t, doc)[id].parent == u.payload.parent;
    assert ServerView(t, doc)[id].position == u.payload.position;
    assert ClientView(swapped)[id].parent == w.payload.parent && ClientView(swapped)[id].position == w.payload.position;
  }
}
