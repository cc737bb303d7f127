/** Parent pointers, ancestor chains and what re-parenting and pruning do to them. */
module Forest {
  import opened Wrappers

  type Id = nat
  type Parents = map<Id, Option<Id>>

  /** Exactly `k` parent steps lead from `x` to `y` through present blocks. */
  ghost predicate Climbs(ps: Parents, x: Id, y: Id, k: nat)
    decreases k
  {
    && x in ps
    && (if k == 0 then x == y else ps[x].Some? && Climbs(ps, ps[x].value, y, k - 1))
  }

  /** The ancestor chain of `x`, which starts at `x` itself, passes through `y`. */
  ghost predicate Under(ps: Parents, x: Id, y: Id) {
    exists k: nat :: Climbs(ps, x, y, k)
  }

  /** `x` has exactly `n` ancestors, the last of which has a null parent. */
  ghost predicate AtDepth(ps: Parents, x: Id, n: nat)
    decreases n
  {
    && x in ps
    && (if n == 0 then ps[x].None? else ps[x].Some? && AtDepth(ps, ps[x].value, n - 1))
  }

  /** The ancestor chain of `x` reaches a null parent through present blocks. */
  ghost predicate Rooted(ps: Parents, x: Id) {
    exists n: nat :: AtDepth(ps, x, n)
  }

  ghost predicate Closed(ps: Parents) {
    forall x :: x in ps && ps[x].Some? ==> ps[x].value in ps
  }

  ghost predicate Acyclic(ps: Parents) {
    forall x :: x in ps ==> Rooted(ps, x)
  }

  ghost predicate Childless(ps: Parents, id: Id) {
    forall x :: x in ps ==> ps[x] != Some(id)
  }

  /** No block but possibly `id` itself has `id` as parent. */
  ghost predicate NoOtherChild(ps: Parents, id: Id) {
    forall x :: x in ps && x != id ==> ps[x] != Some(id)
  }

  lemma UnderSelf(ps: Parents, x: Id)
    requires x in ps
    ensures Under(ps, x, x)
  {
    assert Climbs(ps, x, x, 0);
  }

  lemma UnderParent(ps: Parents, x: Id, y: Id)
    requires x in ps && ps[x].Some? && Under(ps, ps[x].value, y)
    ensures Under(ps, x, y)
  {
    var k: nat :| Climbs(ps, ps[x].value, y, k);
    assert Climbs(ps, x, y, k + 1);
  }

  lemma {:induction false} DepthUnique(ps: Parents, x: Id, m: nat, n: nat)
    requires AtDepth(ps, x, m) && AtDepth(ps, x, n)
    ensures m == n
    decreases m
  {
    if m > 0 {
      DepthUnique(ps, ps[x].value, m - 1, n - 1);
    }
  }

  /** Chains that avoid `id` are not affected by a new parent for `id`. */
  lemma {:induction false} DepthUnaffected(ps: Parents, id: Id, p: Option<Id>, x: Id, n: nat)
    requires AtDepth(ps, x, n) && !Under(ps, x, id)
    ensures AtDepth(ps[id := p], x, n)
    decreases n
  {
    UnderSelf(ps, x);
    if n > 0 {
      if Under(ps, ps[x].value, id) {
        UnderParent(ps, x, id);
      }
      DepthUnaffected(ps, id, p, ps[x].value, n - 1);
    }
  }

  lemma RootedUnderNewParent(ps: Parents, id: Id, p: Option<Id>)
    requires p.Some? ==> Rooted(ps, p.value) && !Under(ps, p.value, id)
    ensures Rooted(ps[id := p], id)
  {
    if p.None? {
      assert AtDepth(ps[id := p], id, 0);
    } else {
      var n: nat :| AtDepth(ps, p.value, n);
      DepthUnaffected(ps, id, p, p.value, n);
      assert AtDepth(ps[id := p], id, n + 1);
    }
  }

  lemma {:induction false} RootedAfterReparent(ps: Parents, id: Id, p: Option<Id>, x: Id, n: nat)
    requires AtDepth(ps, x, n)
    requires p.Some? ==> Rooted(ps, p.value) && !Under(ps, p.value, id)
    ensures Rooted(ps[id := p], x)
    decreases n
  {
    if x == id {
      RootedUnderNewParent(ps, id, p);
    } else if n == 0 {
      assert AtDepth(ps[id := p], x, 0);
    } else {
      RootedAfterReparent(ps, id, p, ps[x].value, n - 1);
      var m: nat :| AtDepth(ps[id := p], ps[x].value, m);
      assert AtDepth(ps[id := p], x, m + 1);
    }
  }

  /** Whatever sits under `id` is at least as deep as `id` also after the re-parenting. */
  lemma {:induction false} DepthThroughTarget(ps: Parents, id: Id, p: Option<Id>, x: Id, k: nat, m: nat) returns (d: nat)
    requires Climbs(ps, x, id, k) && AtDepth(ps[id := p], x, m)
    ensures d <= m && AtDepth(ps[id := p], id, d)
    decreases k
  {
    if x == id {
      d := m;
    } else {
      d := DepthThroughTarget(ps, id, p, ps[x].value, k - 1, m - 1);
    }
  }

  /** Giving `id` a parent from its own subtree leaves `id` without a root. */
  lemma CycleIsNotRooted(ps: Parents, id: Id, p: Id)
    requires Under(ps, p, id)
    ensures !Rooted(ps[id := Some(p)], id)
  {
    var ps' := ps[id := Some(p)];
    if n: nat :| AtDepth(ps', id, n) {
      var k: nat :| Climbs(ps, p, id, k);
      var d := DepthThroughTarget(ps, id, Some(p), p, k, n - 1);
      DepthUnique(ps', id, n, d);
    }
  }

  /** Re-parenting keeps a forest acyclic exactly when the new parent is outside the moved subtree. */
  lemma ReparentAcyclicIff(ps: Parents, id: Id, p: Option<Id>)
    requires Acyclic(ps) && (p.Some? ==> p.value in ps)
    ensures Acyclic(ps[id := p]) <==> (p.Some? ==> !Under(ps, p.value, id))
  {
    if p.Some? && Under(ps, p.value, id) {
      CycleIsNotRooted(ps, id, p.value);
    } else {
      var ps' := ps[id := p];
      forall x | x in ps'
        ensures Rooted(ps', x)
      {
        if x == id {
          RootedUnderNewParent(ps, id, p);
        } else {
          var n: nat :| AtDepth(ps, x, n);
          RootedAfterReparent(ps, id, p, x, n);
        }
      }
    }
  }

  /** Recorded depths equal the numbers of ancestors. */
  ghost predicate DepthsOk(ps: Parents, ds: map<Id, nat>) {
    && ds.Keys == ps.Keys
    && forall x :: x in ps ==> AtDepth(ps, x, ds[x])
  }

  lemma DepthsOkIsAcyclic(ps: Parents, ds: map<Id, nat>)
    requires DepthsOk(ps, ds)
    ensures Acyclic(ps) && Closed(ps)
  {
    forall x | x in ps
      ensures Rooted(ps, x)
      ensures ps[x].Some? ==> ps[x].value in ps
    {
      assert AtDepth(ps, x, ds[x]);
      if ps[x].Some? {
        assert AtDepth(ps, ps[x].value, ds[x] - 1);
      }
    }
  }

  /** A new parent at the same level as before changes no depth. */
  lemma {:induction false} DepthSameLevel(ps: Parents, id: Id, p: Option<Id>, x: Id, n: nat, d: nat)
    requires AtDepth(ps, x, n) && AtDepth(ps, id, d) && AtDepth(ps[id := p], id, d)
    ensures AtDepth(ps[id := p], x, n)
    decreases n
  {
    if x == id {
      DepthUnique(ps, id, n, d);
    } else if n > 0 {
      DepthSameLevel(ps, id, p, ps[x].value, n - 1, d);
    }
  }

  /** The depth a block gets below `p`. */
  function DepthBelow(ds: map<Id, nat>, p: Option<Id>): nat
    requires p.Some? ==> p.value in ds
  {
    if p.None? then 0 else ds[p.value] + 1
  }

  /**
   * Re-parenting that rewrites only the depth of `id` keeps all depths right exactly
   * when it makes no cycle and either `id` has no children or its level is unchanged.
   */
  lemma ReparentDepthsIff(ps: Parents, ds: map<Id, nat>, id: Id, p: Option<Id>)
    requires DepthsOk(ps, ds) && id in ps && (p.Some? ==> p.value in ps)
    ensures DepthsOk(ps[id := p], ds[id := DepthBelow(ds, p)]) <==>
              && (p.Some? ==> !Under(ps, p.value, id))
              && (Childless(ps, id) || DepthBelow(ds, p) == ds[id])
  {
    var ps', nd := ps[id := p], DepthBelow(ds, p);
    var ds' := ds[id := nd];
    DepthsOkIsAcyclic(ps, ds);
    ReparentAcyclicIff(ps, id, p);
    if DepthsOk(ps', ds') {
      DepthsOkIsAcyclic(ps', ds');
      if c :| c in ps && ps[c] == Some(id) {
        assert c != id by {
          if c == id {
            assert AtDepth(ps, id, ds[id]) && AtDepth(ps, id, ds[id] - 1);
            DepthUnique(ps, id, ds[id], ds[id] - 1);
          }
        }
        assert AtDepth(ps, c, ds[c]) && AtDepth(ps', c, ds[c]);
        DepthUnique(ps, id, ds[id], ds[c] - 1);
        assert AtDepth(ps', id, nd);
        DepthUnique(ps', id, nd, ds[c] - 1);
      }
    } else if p.Some? ==> !Under(ps, p.value, id) {
      assert AtDepth(ps', id, nd) by {
        if p.Some? {
          DepthUnaffected(ps, id, p, p.value, ds[p.value]);
        }
      }
      assert AtDepth(ps, id, ds[id]);
      if Childless(ps, id) || nd == ds[id] {
        forall x | x in ps'
          ensures AtDepth(ps', x, ds'[x])
        {
          if x != id && nd == ds[id] {
            DepthSameLevel(ps, id, p, x, ds[x], nd);
          } else if x != id {
            ChildlessIsNotAbove(ps, id, x);
            DepthUnaffected(ps, id, p, x, ds[x]);
          }
        }
      }
    }
  }

  lemma ChildlessIsNotAbove(ps: Parents, id: Id, x: Id)
    requires NoOtherChild(ps, id) && x != id
    ensures !Under(ps, x, id)
  {
    if k: nat :| Climbs(ps, x, id, k) {
      ChildlessClimb(ps, id, x, k);
    }
  }

  lemma {:induction false} ChildlessClimb(ps: Parents, id: Id, x: Id, k: nat)
    requires NoOtherChild(ps, id) && x != id
    ensures !Climbs(ps, x, id, k)
    decreases k
  {
    if k > 0 && x in ps && ps[x].Some? {
      ChildlessClimb(ps, id, ps[x].value, k - 1);
    }
  }

  /** A block added under an existing parent. */
  lemma AddedDepths(ps: Parents, ds: map<Id, nat>, id: Id, p: Option<Id>)
    requires DepthsOk(ps, ds) && id !in ps && (p.Some? ==> p.value in ps)
    ensures DepthsOk(ps[id := p], ds[id := DepthBelow(ds, p)])
  {
    forall x | x in ps
      ensures AtDepth(ps[id := p], x, ds[x])
    {
      AbsentIsNotAbove(ps, id, x);
      DepthUnaffected(ps, id, p, x, ds[x]);
    }
  }

  lemma AbsentIsNotAbove(ps: Parents, id: Id, x: Id)
    requires id !in ps
    ensures !Under(ps, x, id)
  {
    if k: nat :| Climbs(ps, x, id, k) {
      ClimbEndsPresent(ps, x, id, k);
    }
  }

  lemma {:induction false} ClimbEndsPresent(ps: Parents, x: Id, y: Id, k: nat)
    requires Climbs(ps, x, y, k)
    ensures y in ps
    decreases k
  {
    if k > 0 {
      ClimbEndsPresent(ps, ps[x].value, y, k - 1);
    }
  }

  /** What a cascading delete of `id` leaves. */
  ghost function Prune(ps: Parents, id: Id): Parents {
    map x | x in ps && !Under(ps, x, id) :: ps[x]
  }

  lemma {:induction false} PrunedDepth(ps: Parents, id: Id, x: Id, n: nat)
    requires AtDepth(ps, x, n) && !Under(ps, x, id)
    ensures AtDepth(Prune(ps, id), x, n)
    decreases n
  {
    if n > 0 {
      if Under(ps, ps[x].value, id) {
        UnderParent(ps, x, id);
      }
      PrunedDepth(ps, id, ps[x].value, n - 1);
    }
  }

  /** Only the target itself goes exactly when no other block is its child. */
  lemma PruneIsSingletonIff(ps: Parents, id: Id)
    requires id in ps
    ensures Prune(ps, id) == ps - {id} <==> NoOtherChild(ps, id)
  {
    UnderSelf(ps, id);
    if NoOtherChild(ps, id) {
      forall x | x in ps && x != id
        ensures !Under(ps, x, id)
      {
        ChildlessIsNotAbove(ps, id, x);
      }
    } else {
      var c :| c in ps && c != id && ps[c] == Some(id);
      UnderParent(ps, c, id);
      assert c in ps - {id} && c !in Prune(ps, id);
    }
  }
}
