/** Where a block stands among its siblings, told by their positions. */
module Placement {
  import opened Forest
  import opened Ranks

  /** The positions of one sibling set. */
  type Positions = map<Id, Rank>

  ghost predicate Distinct(ps: Positions) {
    forall x, y :: x in ps && y in ps && x != y ==> ps[x] != ps[y]
  }

  /** `id` comes after `a` and everything up to `a`, and before everything else; no other position equals its own. */
  ghost predicate ImmediatelyAfter(ps: Positions, a: Id, id: Id) {
    && a in ps && id in ps
    && Lt(ps[a], ps[id])
    && forall s :: s in ps && s != id ==>
         && (Lt(ps[s], ps[id]) <==> Le(ps[s], ps[a]))
         && ps[s] != ps[id]
  }

  ghost predicate IsFirst(ps: Positions, id: Id) {
    id in ps && forall s :: s in ps && s != id ==> Lt(ps[id], ps[s])
  }

  ghost predicate IsLast(ps: Positions, id: Id) {
    id in ps && forall s :: s in ps && s != id ==> Lt(ps[s], ps[id])
  }

  /** A position that no other sibling has keeps the set distinct. */
  lemma DistinctWith(ps: Positions, id: Id, q: Rank)
    requires Distinct(ps - {id})
    requires forall s :: s in ps && s != id ==> ps[s] != q
    ensures Distinct(ps[id := q])
  {
    var ps' := ps[id := q];
    forall x, y | x in ps' && y in ps' && x != y
      ensures ps'[x] != ps'[y]
    {
      if x != id && y != id {
        assert x in ps - {id} && y in ps - {id};
        assert (ps - {id})[x] == ps[x];
      }
    }
  }

  /** A position keeps the set distinct exactly when no other sibling has it. */
  lemma DistinctWithIff(ps: Positions, id: Id, q: Rank)
    requires Distinct(ps)
    ensures Distinct(ps[id := q]) <==> !exists s :: s in ps && s != id && ps[s] == q
  {
    if s :| s in ps && s != id && ps[s] == q {
      var ps' := ps[id := q];
      assert s in ps' && id in ps' && ps'[s] == ps'[id];
    } else {
      assert forall x :: x in ps - {id} ==> x in ps && (ps - {id})[x] == ps[x];
      assert Distinct(ps - {id});
      DistinctWith(ps, id, q);
    }
  }
}
