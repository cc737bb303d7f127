/** Recorded depths of server and client: apps/web/src/store/block-store.ts with apps/api/app/ops/apply.py. */
module RemoteDepths {
  import opened Wrappers
  import opened Wire
  import opened ApplyProperties
  import opened BlockIndex
  import opened Replica
  import Reordering
  import S = ApplyOps
  import C = BlockStore

  /** Every block the server has is on the client with the same depth. */
  ghost predicate DepthsFollow(t: S.Table, doc: nat, b: Blocks) {
    forall x :: S.Live(t, doc, x) ==> x in b && b[x].depth == t[x].depth
  }

  /** The operation is no move to another level: a streamed move leaves the client's depth alone. */
  ghost predicate KeepsLevel(t: S.Table, doc: nat, op: S.Op) {
    op.Move? && op.id in t && op.id in S.Step(t, doc, op).0 ==> S.Step(t, doc, op).0[op.id].depth == t[op.id].depth
  }

  /** From equal depths, an applied streamed operation keeps them equal exactly if it moves no block to another level. */
  lemma StepDepthsFollowIff(t: S.Table, doc: nat, op: S.Op, b: Blocks)
    requires TreeOk(t) && DepthsFollow(t, doc, b) && S.Step(t, doc, op).1.Applied?
    ensures DepthsFollow(S.Step(t, doc, op).0, doc, C.RemoteStep(b, S.Step(t, doc, op).1.op)) <==> KeepsLevel(t, doc, op)
  {
    var t', b' := S.Step(t, doc, op).0, C.RemoteStep(b, S.Step(t, doc, op).1.op);
    if op.Delete? {
      forall x | S.Live(t', doc, x)
        ensures x in b' && b'[x].depth == t'[x].depth
      {
        SurvivorIsNoChild(t, doc, op, x);
        assert S.Live(t, doc, x);
      }
    } else {
      ServerRowViewed(t, doc, op);
      if op.Insert? && op.parent.Some? {
        assert S.Live(t, doc, op.parent.value);
      }
      if op.Move? {
        assert S.Live(t, doc, op.id) && S.Live(t', doc, op.id);
      }
    }
  }

  /** The depths are equal after every prefix of the run. */
  ghost predicate DepthsFollowThroughout(t: S.Table, ops: seq<S.Posted>, doc: nat, b: Blocks) {
    forall k: nat :: k <= |ops| ==> DepthsFollow(S.Run(t, ops[..k]), doc, C.ApplyRemote(b, Stream(t, ops[..k], doc)))
  }

  ghost predicate AllKeepLevel(t: S.Table, ops: seq<S.Posted>, doc: nat) {
    forall k: nat :: k < |ops| && ops[k].doc == doc && S.OutcomeAt(t, ops, k).Applied? ==>
      KeepsLevel(S.Run(t, ops[..k]), doc, ops[k].op)
  }

  lemma OneMoreDepthIff(t: S.Table, ops: seq<S.Posted>, doc: nat, b: Blocks, k: nat)
    requires TreeOk(t) && k < |ops| && DepthsFollow(S.Run(t, ops[..k]), doc, C.ApplyRemote(b, Stream(t, ops[..k], doc)))
    ensures DepthsFollow(S.Run(t, ops[..k + 1]), doc, C.ApplyRemote(b, Stream(t, ops[..k + 1], doc))) <==>
              (ops[k].doc == doc && S.OutcomeAt(t, ops, k).Applied? ==> KeepsLevel(S.Run(t, ops[..k]), doc, ops[k].op))
  {
    var now := ops[..k + 1];
    var s, c := S.Run(t, ops[..k]), C.ApplyRemote(b, Stream(t, ops[..k], doc));
    assert now[..k] == ops[..k];
    StreamNext(t, now, doc, b);
    Reordering.RunKeepsTree(t, ops[..k]);
    if ops[k].doc != doc {
      OtherDepths(s, ops[k].doc, ops[k].op, doc);
    } else if S.OutcomeAt(t, ops, k).Applied? {
      StepDepthsFollowIff(s, doc, ops[k].op, c);
    } else {
      ConflictChangesNothing(s, doc, ops[k].op);
    }
  }

  lemma OtherDepths(t: S.Table, doc: nat, op: S.Op, viewed: nat)
    requires TreeOk(t) && doc != viewed
    ensures forall x :: S.Live(S.Step(t, doc, op).0, viewed, x) <==> S.Live(t, viewed, x)
    ensures forall x :: S.Live(t, viewed, x) ==> x in S.Step(t, doc, op).0 && S.Step(t, doc, op).0[x].depth == t[x].depth
  {
    var t' := S.Step(t, doc, op).0;
    OtherDocument(t, doc, op, viewed);
    assert forall x :: S.Live(t', viewed, x) <==> x in ServerView(t', viewed);
    assert forall x :: S.Live(t, viewed, x) <==> x in ServerView(t, viewed);
  }

  lemma {:induction false} DepthsUpTo(t: S.Table, ops: seq<S.Posted>, doc: nat, b: Blocks, k: nat)
    requires TreeOk(t) && DepthsFollow(t, doc, b) && AllKeepLevel(t, ops, doc) && k <= |ops|
    ensures DepthsFollow(S.Run(t, ops[..k]), doc, C.ApplyRemote(b, Stream(t, ops[..k], doc)))
    decreases k
  {
    if k == 0 {
      assert ops[..0] == [];
    } else {
      DepthsUpTo(t, ops, doc, b, k - 1);
      OneMoreDepthIff(t, ops, doc, b, k - 1);
    }
  }

  /** Depths are equal throughout a run exactly if it moves no block to another level. */
  lemma DepthsFollowIff(t: S.Table, ops: seq<S.Posted>, doc: nat, b: Blocks)
    requires TreeOk(t) && DepthsFollow(t, doc, b)
    ensures DepthsFollowThroughout(t, ops, doc, b) <==> AllKeepLevel(t, ops, doc)
  {
    if AllKeepLevel(t, ops, doc) {
      forall k: nat | k <= |ops|
        ensures DepthsFollow(S.Run(t, ops[..k]), doc, C.ApplyRemote(b, Stream(t, ops[..k], doc)))
      {
        DepthsUpTo(t, ops, doc, b, k);
      }
    }
    if DepthsFollowThroughout(t, ops, doc, b) {
      forall k: nat | k < |ops| && ops[k].doc == doc && S.OutcomeAt(t, ops, k).Applied?
        ensures KeepsLevel(S.Run(t, ops[..k]), doc, ops[k].op)
      {
        OneMoreDepthIff(t, ops, doc, b, k);
      }
    }
  }
}
