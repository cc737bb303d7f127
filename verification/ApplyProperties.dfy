/** What every run of applied operations keeps: tree, depths, versions, rank shapes and placement. */
module ApplyProperties {
  import opened Wrappers
  import opened Ranks
  import opened Forest
  import opened Wire
  import opened ServerRanks
  import opened ApplyOps
  import opened Placement

  // --------------------------------------------------------------- attributes

  /** Two patches in a row act like one patch in which the later one wins. */
  lemma PatchesCompose(c: Content, p: Attrs, q: Attrs)
    ensures MergeAttrs(MergeAttrs(c, p), q) == MergeAttrs(c, p + q)
  {
    var a := AttrsOf(c);
    assert Patched(Patched(a, p), q) == Patched(a, p + q);
  }

  // --------------------------------------------------------------------- tree

  /** Every non-null parent is a live block of the same document. */
  ghost predicate TreeOk(t: Table) {
    forall x :: x in t ==> ParentOk(t, t[x].doc, t[x].parent)
  }

  function DepthsOf(t: Table): map<Id, nat> {
    map x | x in t :: t[x].depth
  }

  ghost predicate DepthsRight(t: Table) {
    DepthsOk(ParentsOf(t), DepthsOf(t))
  }

  lemma CascadeTree(t: Table, id: Id)
    requires TreeOk(t)
    ensures TreeOk(Cascade(t, id))
    ensures ParentsOf(Cascade(t, id)) == Prune(ParentsOf(t), id)
  {
    var c, ps := Cascade(t, id), ParentsOf(t);
    forall x | x in c && c[x].parent.Some?
      ensures c[x].parent.value in c
    {
      if Under(ps, t[x].parent.value, id) {
        UnderParent(ps, x, id);
      }
    }
  }

  /** No operation leaves a dangling parent or one of another document. */
  lemma StepKeepsTree(t: Table, doc: nat, op: Op)
    requires TreeOk(t)
    ensures TreeOk(Step(t, doc, op).0)
  {
    if op.Delete? {
      CascadeTree(t, op.id);
    }
  }

  /** An applied delete removes exactly the blocks whose ancestor chain passes through its target. */
  lemma DeleteRemovesExactlyTheSubtree(t: Table, doc: nat, id: Id, expected: Option<nat>)
    requires Live(t, doc, id) && Step(t, doc, Delete(id, expected)).1.Applied?
    ensures var t' := Step(t, doc, Delete(id, expected)).0;
            && (forall x :: x in t' <==> x in t && !Under(ParentsOf(t), x, id))
            && (forall x :: x in t' ==> t'[x] == t[x])
            && id !in t'
  {
    UnderSelf(ParentsOf(t), id);
  }

  /** The move goes into the subtree of the moved block. */
  ghost predicate MovesIntoOwnSubtree(t: Table, op: Op) {
    op.Move? && op.parent.Some? && Under(ParentsOf(t), op.parent.value, op.id)
  }

  lemma StepParents(t: Table, doc: nat, op: Op)
    requires Step(t, doc, op).1.Applied?
    ensures var t' := Step(t, doc, op).0;
            && (op.Insert? || op.Move? ==>
                  && (op.parent.Some? ==> op.parent.value in t)
                  && ParentsOf(t') == ParentsOf(t)[op.id := op.parent]
                  && DepthsOf(t') == DepthsOf(t)[op.id := DepthUnder(t, op.parent)])
            && (op.UpdateAttrs? || op.UpdateContent? ==>
                  ParentsOf(t') == ParentsOf(t) && DepthsOf(t') == DepthsOf(t))
  {
    var t' := Step(t, doc, op).0;
    if op.Insert? || op.Move? {
      PlacedRow(t, doc, op);
      OneRowChanges(t, t', op.id);
    } else if op.UpdateAttrs? || op.UpdateContent? {
      assert t' == t[op.id := t'[op.id]];
      OneRowChanges(t, t', op.id);
      assert ParentsOf(t)[op.id := t[op.id].parent] == ParentsOf(t) && DepthsOf(t)[op.id := t[op.id].depth] == DepthsOf(t);
    }
  }

  lemma OneRowChanges(t: Table, t': Table, id: Id)
    requires id in t' && t' == t[id := t'[id]]
    ensures ParentsOf(t') == ParentsOf(t)[id := t'[id].parent] && DepthsOf(t') == DepthsOf(t)[id := t'[id].depth]
  {
  }

  /** An applied operation keeps the forest acyclic exactly when it does not move a block into its own subtree. */
  lemma StepAcyclicIff(t: Table, doc: nat, op: Op)
    requires TreeOk(t) && Acyclic(ParentsOf(t)) && Step(t, doc, op).1.Applied?
    ensures Acyclic(ParentsOf(Step(t, doc, op).0)) <==> !MovesIntoOwnSubtree(t, op)
  {
    var ps := ParentsOf(t);
    StepParents(t, doc, op);
    if op.Insert? || op.Move? {
      ReparentAcyclicIff(ps, op.id, op.parent);
      if op.Insert? && op.parent.Some? {
        AbsentIsNotAbove(ps, op.id, op.parent.value);
      }
    } else if op.Delete? && Live(t, doc, op.id) {
      CascadeTree(t, op.id);
      forall x | x in Prune(ps, op.id)
        ensures Rooted(Prune(ps, op.id), x)
      {
        var n: nat :| AtDepth(ps, x, n);
        PrunedDepth(ps, op.id, x, n);
      }
    }
  }

  /** A move under which the recorded depths stay right: no cycle, and no children unless the level is kept. */
  ghost predicate DepthSafeMove(t: Table, op: Op)
    requires op.Move? && (op.parent.Some? ==> op.parent.value in t)
  {
    && !MovesIntoOwnSubtree(t, op)
    && (Childless(ParentsOf(t), op.id) || (op.id in t && DepthUnder(t, op.parent) == t[op.id].depth))
  }

  /** Recorded depths remain the numbers of ancestors under every applied operation, moves only if depth-safe. */
  lemma StepDepthsIff(t: Table, doc: nat, op: Op)
    requires TreeOk(t) && DepthsRight(t) && Step(t, doc, op).1.Applied?
    ensures DepthsRight(Step(t, doc, op).0) <==> (op.Move? ==> DepthSafeMove(t, op))
  {
    var ps, ds := ParentsOf(t), DepthsOf(t);
    StepParents(t, doc, op);
    if op.Insert? {
      AddedDepths(ps, ds, op.id, op.parent);
    } else if op.Move? {
      ReparentDepthsIff(ps, ds, op.id, op.parent);
    } else if op.Delete? && Live(t, doc, op.id) {
      CascadeDepths(t, op.id);
    }
  }

  lemma CascadeDepths(t: Table, id: Id)
    requires TreeOk(t) && DepthsRight(t)
    ensures DepthsRight(Cascade(t, id))
  {
    var ps, ds := ParentsOf(t), DepthsOf(t);
    CascadeTree(t, id);
    forall x | x in Prune(ps, id)
      ensures AtDepth(Prune(ps, id), x, ds[x])
    {
      PrunedDepth(ps, id, x, ds[x]);
    }
  }

  // --------------------------------------------------------------- rank shape

  ghost predicate RankShape(t: Table) {
    forall x :: x in t ==>
      Valid(t[x].position) && t[x].position != [] && (EndsNonZero(t[x].position) || AllZero(t[x].position))
  }

  ghost predicate SameSiblings(t: Table, x: Id, y: Id)
    requires x in t && y in t
  {
    t[x].doc == t[y].doc && t[x].parent == t[y].parent
  }

  /** Each sibling set holds at most one all-'0' position. */
  ghost predicate OneZero(t: Table) {
    forall x, y :: x in t && y in t && SameSiblings(t, x, y) && AllZero(t[x].position) && AllZero(t[y].position) ==> x == y
  }

  /** Below a parent, positions are distinct. */
  ghost predicate UniqueBelowParents(t: Table) {
    forall x, y :: x in t && y in t && x != y && SameSiblings(t, x, y) && t[x].parent.Some? ==> t[x].position != t[y].position
  }

  ghost predicate Shaped(t: Table) {
    RankShape(t) && OneZero(t) && UniqueBelowParents(t)
  }

  lemma {:induction false} ZeroIsBelow(z: Rank, m: Rank)
    requires AllZero(z) && Valid(m) && !AllZero(m)
    ensures Lt(z, m)
  {
    if z != [] && m[0] == MIN_CHAR {
      assert m == [m[0]] + m[1..];
      ZeroIsBelow(z[1..], m[1..]);
    }
  }

  /** The facts about a position computed under `parent` that the properties below rest on. */
  ghost predicate GoodPlace(t: Table, doc: nat, parent: Option<Id>, after: Option<Id>, q: Rank) {
    var sib := Siblings(t, doc, parent);
    && Valid(q) && q != [] && (EndsNonZero(q) || AllZero(q))
    && (AllZero(q) ==> forall s :: s in sib ==> !AllZero(t[s].position))
    && (after.Some? ==>
          && after.value in t
          && Lt(t[after.value].position, q)
          && forall s :: s in sib ==>
               && (Lt(t[s].position, q) <==> Le(t[s].position, t[after.value].position))
               && t[s].position != q)
    && (after.None? && (forall s :: s in sib ==> !AllZero(t[s].position)) ==>
          forall s :: s in sib ==> Lt(q, t[s].position))
  }

  lemma PlaceSpec(t: Table, doc: nat, parent: Option<Id>, after: Option<Id>)
    requires RankShape(t) && Place(t, doc, parent, after).Ok?
    ensures GoodPlace(t, doc, parent, after, Place(t, doc, parent, after).value)
  {
    if after.Some? {
      PlaceAfterSpec(t, doc, parent, after.value);
    } else {
      PlaceFirstSpec(t, doc, parent);
    }
  }

  lemma PlaceAfterSpec(t: Table, doc: nat, parent: Option<Id>, a: Id)
    requires RankShape(t) && Place(t, doc, parent, Some(a)).Ok?
    ensures GoodPlace(t, doc, parent, Some(a), Place(t, doc, parent, Some(a)).value)
  {
    var left := t[a].position;
    var beyond := Beyond(t, doc, parent, Some(left));
    var right := Least(t, beyond);
    var q := Place(t, doc, parent, Some(a)).value;
    if right.Some? {
      var w :| w in beyond && t[w].position == right.value;
      BetweenExact(left, right.value);
    } else {
      AfterIsGreater(left);
    }
    forall s | s in Siblings(t, doc, parent)
      ensures Lt(t[s].position, q) <==> Le(t[s].position, left)
      ensures t[s].position != q
    {
      NotLtIsGe(left, t[s].position);
      LtIrreflexive(q);
      if Le(t[s].position, left) {
        LeLtTransitive(t[s].position, left, q);
      } else {
        assert s in beyond;
        LeLtTransitive(q, right.value, t[s].position);
        LtAsymmetric(q, t[s].position);
      }
    }
  }

  /** The least position of siblings, one of which is all '0', is all '0'; without such a sibling it is not. */
  lemma LeastIsZeroIff(t: Table, sib: set<Id>, r: Rank)
    requires RankShape(t) && sib <= t.Keys && sib != {} && IsLeast(t, sib, Some(r))
    ensures Valid(r) && (AllZero(r) <==> exists s :: s in sib && AllZero(t[s].position))
  {
    var w :| w in sib && t[w].position == r;
    if s :| s in sib && AllZero(t[s].position) && !AllZero(r) {
      ZeroIsBelow(t[s].position, r);
      NotLtIsGe(t[s].position, r);
    }
  }

  lemma BeforeLeastIsFirst(t: Table, sib: set<Id>, r: Rank, s: Id)
    requires RankShape(t) && sib <= t.Keys && s in sib && IsLeast(t, sib, Some(r)) && Valid(r) && !AllZero(r)
    ensures Before(r).Ok? && Lt(Before(r).value, t[s].position)
  {
    BeforeSpec(r);
    LeLtTransitive(Before(r).value, r, t[s].position);
  }

  lemma PlaceFirstSpec(t: Table, doc: nat, parent: Option<Id>)
    requires RankShape(t)
    ensures Place(t, doc, parent, None).Ok?
    ensures GoodPlace(t, doc, parent, None, Place(t, doc, parent, None).value)
  {
    var sib := Beyond(t, doc, parent, None);
    assert sib == Siblings(t, doc, parent);
    var right := Least(t, sib);
    if right.Some? {
      LeastIsZeroIff(t, sib, right.value);
      BeforeSpec(right.value);
      AfterIsGreater(right.value);
      var q := Before(right.value).value;
      assert AllZero(q) ==> !AllZero(right.value);
      forall s | s in sib
        ensures AllZero(q) ==> !AllZero(t[s].position)
        ensures !AllZero(right.value) ==> Lt(q, t[s].position)
      {
        if !AllZero(right.value) {
          BeforeLeastIsFirst(t, sib, right.value, s);
        }
      }
    }
  }

  ghost predicate OnlyZero(t: Table, sib: set<Id>, z: Id)
    requires sib <= t.Keys
  {
    forall s :: s in sib && AllZero(t[s].position) ==> s == z
  }

  lemma OneZeroIsOnly(t: Table, doc: nat, parent: Option<Id>, z: Id)
    requires OneZero(t) && z in Siblings(t, doc, parent) && AllZero(t[z].position)
    ensures OnlyZero(t, Siblings(t, doc, parent), z)
  {
    assert forall s :: s in Siblings(t, doc, parent) ==> SameSiblings(t, s, z);
  }

  /** With a single all-'0' sibling, a head insertion takes the one position right behind it. */
  lemma PlaceBehindZero(t: Table, doc: nat, parent: Option<Id>, z: Id)
    requires RankShape(t) && z in Siblings(t, doc, parent) && AllZero(t[z].position) && OnlyZero(t, Siblings(t, doc, parent), z)
    ensures Place(t, doc, parent, None) == Ok(After(t[z].position))
  {
    var sib := Beyond(t, doc, parent, None);
    assert sib == Siblings(t, doc, parent);
    var r := Least(t, sib).value;
    LeastIsZeroIff(t, sib, r);
    var w :| w in sib && t[w].position == r;
    BeforeSpec(r);
  }

  /**
   * Computing a position fails exactly when `after` is not a block of the document or the
   * next sibling's position is the position of `after` followed by '0's.
   */
  lemma PlaceFailsIff(t: Table, doc: nat, parent: Option<Id>, after: Option<Id>)
    requires RankShape(t)
    ensures Place(t, doc, parent, after).Err? <==>
              && after.Some?
              && (!Live(t, doc, after.value) ||
                  var next := Least(t, Beyond(t, doc, parent, LeftBound(t, after)));
                  next.Some? && ZeroExtension(t[after.value].position, next.value))
    ensures Place(t, doc, parent, after).Err? ==>
              Place(t, doc, parent, after).error ==
                if !Live(t, doc, after.value) then AfterNotFound else NoRank(IdenticalAfterPadding)
  {
    if after.None? {
      PlaceFirstSpec(t, doc, parent);
    } else if Live(t, doc, after.value) {
      var left := t[after.value].position;
      var beyond := Beyond(t, doc, parent, Some(left));
      var next := Least(t, beyond);
      if next.Some? {
        var w :| w in beyond && t[w].position == next.value;
        BetweenExact(left, next.value);
      }
    }
  }

  /** With `after` absent or a child of the destination parent, generating a rank never raises. */
  lemma PlaceNeverRaises(t: Table, doc: nat, parent: Option<Id>, after: Option<Id>)
    requires RankShape(t) && OneZero(t)
    requires after.Some? ==> after.value in Siblings(t, doc, parent)
    ensures Place(t, doc, parent, after).Ok?
  {
    PlaceFailsIff(t, doc, parent, after);
    if after.Some? {
      var left := t[after.value].position;
      var beyond := Beyond(t, doc, parent, Some(left));
      var next := Least(t, beyond);
      if next.Some? && ZeroExtension(left, next.value) {
        var w :| w in beyond && t[w].position == next.value;
        LtIrreflexive(left);
        ZeroExtensionIsZero(left, next.value);
        assert SameSiblings(t, w, after.value);
      }
    }
  }

  lemma ZeroExtensionIsZero(left: Rank, right: Rank)
    requires ZeroExtension(left, right) && left != right && (EndsNonZero(right) || AllZero(right))
    ensures AllZero(left) && AllZero(right)
  {
    assert right[..|right|] == right;
    assert right[|left|..][|right| - |left| - 1] == right[|right| - 1];
    assert forall i :: 0 <= i < |left| ==> left[i] == right[i];
  }

  /** The position and siblings of the block an applied insert or move has placed. */
  lemma PlacedRow(t: Table, doc: nat, op: Op)
    requires (op.Insert? || op.Move?) && Step(t, doc, op).1.Applied?
    ensures var t' := Step(t, doc, op).0; var q := Place(t, doc, op.parent, op.after);
            && q.Ok?
            && op.id in t' && t' == t[op.id := t'[op.id]]
            && t'[op.id].position == q.value && t'[op.id].doc == doc && t'[op.id].parent == op.parent
            && !Collides(t, op.id, doc, op.parent, q.value)
            && (op.after.Some? ==> Live(t, doc, op.after.value))
            && (op.parent.Some? ==> op.parent.value in t) && t'[op.id].depth == DepthUnder(t, op.parent)
  {
  }

  /** Every row of `t'` stands where it stood in `t`. */
  ghost predicate StandsAsIn(t: Table, t': Table) {
    forall x :: x in t' ==> x in t && t'[x].doc == t[x].doc && t'[x].parent == t[x].parent && t'[x].position == t[x].position
  }

  lemma NobodyMoved(t: Table, doc: nat, op: Op)
    requires !op.Insert? && !op.Move?
    ensures StandsAsIn(t, Step(t, doc, op).0)
  {
  }

  lemma SubsetKeepsShape(t: Table, t': Table)
    requires Shaped(t) && StandsAsIn(t, t')
    ensures Shaped(t')
  {
    assert forall x, y :: x in t' && y in t' && SameSiblings(t', x, y) ==> SameSiblings(t, x, y);
  }

  lemma StepKeepsShape(t: Table, doc: nat, op: Op)
    requires Shaped(t)
    ensures Shaped(Step(t, doc, op).0)
  {
    var t' := Step(t, doc, op).0;
    if Step(t, doc, op).1.Applied? {
      if op.Insert? || op.Move? {
        PlacedRow(t, doc, op);
        PlaceSpec(t, doc, op.parent, op.after);
        PlacedKeepsShape(t, t', doc, op.parent, op.after, op.id);
      } else {
        NobodyMoved(t, doc, op);
        SubsetKeepsShape(t, t');
      }
    }
  }

  lemma PlacedKeepsShape(t: Table, t': Table, doc: nat, parent: Option<Id>, after: Option<Id>, id: Id)
    requires Shaped(t) && id in t' && t' == t[id := t'[id]]
    requires t'[id].doc == doc && t'[id].parent == parent
    requires GoodPlace(t, doc, parent, after, t'[id].position)
    requires !Collides(t, id, doc, parent, t'[id].position)
    ensures Shaped(t')
  {
    forall x, y | x in t' && y in t' && SameSiblings(t', x, y) && x != y
      ensures !(AllZero(t'[x].position) && AllZero(t'[y].position))
      ensures t'[x].parent.Some? ==> t'[x].position != t'[y].position
    {
      if x != id && y != id {
        assert SameSiblings(t, x, y);
      } else {
        assert (if x == id then y else x) in Siblings(t, doc, parent);
      }
    }
  }

  // ---------------------------------------------------------------- placement

  function SiblingPositions(t: Table, doc: nat, parent: Option<Id>): Positions {
    map x | x in Siblings(t, doc, parent) :: t[x].position
  }

  lemma PlacedAmongSiblings(t: Table, t': Table, doc: nat, parent: Option<Id>, id: Id)
    requires id in t' && t' == t[id := t'[id]] && t'[id].doc == doc && t'[id].parent == parent
    ensures SiblingPositions(t', doc, parent) == SiblingPositions(t, doc, parent)[id := t'[id].position]
  {
    assert Siblings(t', doc, parent) == Siblings(t, doc, parent) + {id};
  }

  /** Only the row of `op.id` changes, and the destination siblings keep their positions. */
  lemma PlacementFrame(t: Table, doc: nat, op: Op)
    requires (op.Insert? || op.Move?) && Step(t, doc, op).1.Applied?
    ensures var t' := Step(t, doc, op).0;
            && (forall x :: x in t && x != op.id ==> x in t' && t'[x] == t[x])
            && op.id in t'
            && SiblingPositions(t', doc, op.parent)
                 == SiblingPositions(t, doc, op.parent)[op.id := t'[op.id].position]
  {
    PlacedRow(t, doc, op);
    PlacedAmongSiblings(t, Step(t, doc, op).0, doc, op.parent, op.id);
  }

  /** An applied insert or move after another child of the destination lands immediately after it. */
  lemma LandsAfter(t: Table, doc: nat, op: Op)
    requires RankShape(t) && (op.Insert? || op.Move?) && Step(t, doc, op).1.Applied?
    requires op.after.Some? && op.after.value != op.id && op.after.value in Siblings(t, doc, op.parent)
    ensures ImmediatelyAfter(SiblingPositions(Step(t, doc, op).0, doc, op.parent), op.after.value, op.id)
  {
    PlacementFrame(t, doc, op);
    PlacedRow(t, doc, op);
    PlaceSpec(t, doc, op.parent, op.after);
  }

  /** Another sibling keeps a head insertion from going first: one that is all '0', or one not behind the own all-'0' position. */
  predicate BlocksHead(t: Table, sib: set<Id>, id: Id, s: Id)
    requires sib <= t.Keys
  {
    && s in sib && s != id
    && (AllZero(t[s].position) || (id in sib && AllZero(t[id].position) && !Lt(After(t[id].position), t[s].position)))
  }

  lemma BelowAllIff(t: Table, doc: nat, parent: Option<Id>, id: Id)
    requires RankShape(t) && Place(t, doc, parent, None).Ok?
    ensures var sib := Siblings(t, doc, parent);
            (forall s :: s in sib && s != id ==> Lt(Place(t, doc, parent, None).value, t[s].position)) <==>
              forall s :: !BlocksHead(t, sib, id, s)
  {
    PlaceSpec(t, doc, parent, None);
    var sib, q := Siblings(t, doc, parent), Place(t, doc, parent, None).value;
    if z :| z in sib && z != id && AllZero(t[z].position) {
      ZeroIsBelow(t[z].position, q);
      LtAsymmetric(t[z].position, q);
      assert BlocksHead(t, sib, id, z);
    } else if id in sib && AllZero(t[id].position) {
      PlaceBehindZero(t, doc, parent, id);
      assert forall s :: s in sib && s != id ==> (BlocksHead(t, sib, id, s) <==> !Lt(q, t[s].position));
      assert forall s :: BlocksHead(t, sib, id, s) ==> s in sib && s != id;
    }
  }

  /** Without `after` the block goes first exactly when no other sibling stands in the way. */
  lemma LandsFirst(t: Table, doc: nat, op: Op)
    requires RankShape(t) && (op.Insert? || op.Move?) && Step(t, doc, op).1.Applied? && op.after.None?
    ensures IsFirst(SiblingPositions(Step(t, doc, op).0, doc, op.parent), op.id) <==>
              forall s :: !BlocksHead(t, Siblings(t, doc, op.parent), op.id, s)
  {
    PlacementFrame(t, doc, op);
    PlacedRow(t, doc, op);
    BelowAllIff(t, doc, op.parent, op.id);
    FirstAmong(SiblingPositions(t, doc, op.parent), op.id, Place(t, doc, op.parent, None).value);
    assert SiblingPositions(t, doc, op.parent).Keys == Siblings(t, doc, op.parent);
  }

  lemma FirstAmong(ps: Positions, id: Id, q: Rank)
    ensures IsFirst(ps[id := q], id) <==> forall s :: s in ps && s != id ==> Lt(q, ps[s])
  {
    assert forall s :: s in ps && s != id ==> s in ps[id := q] && ps[id := q][s] == ps[s];
  }

  /** The one position a head insertion can take behind an all-'0' sibling is already taken by another sibling. */
  ghost predicate HeadTaken(t: Table, doc: nat, parent: Option<Id>, id: Id) {
    exists z, y :: TakesHead(t, doc, parent, id, z, y)
  }

  predicate TakesHead(t: Table, doc: nat, parent: Option<Id>, id: Id, z: Id, y: Id) {
    var sib := Siblings(t, doc, parent);
    z in sib && y in sib && y != id && AllZero(t[z].position) && t[y].position == After(t[z].position)
  }

  /** The computed position equals that of another sibling exactly when there is no `after` and the head is taken. */
  lemma PlaceIsTakenIff(t: Table, doc: nat, parent: Option<Id>, after: Option<Id>, id: Id)
    requires RankShape(t) && OneZero(t) && Place(t, doc, parent, after).Ok?
    ensures (exists s :: s in Siblings(t, doc, parent) && s != id && t[s].position == Place(t, doc, parent, after).value) <==>
              after.None? && HeadTaken(t, doc, parent, id)
  {
    PlaceSpec(t, doc, parent, after);
    var sib, q := Siblings(t, doc, parent), Place(t, doc, parent, after).value;
    LtIrreflexive(q);
    if after.None? {
      if z :| z in sib && AllZero(t[z].position) {
        OneZeroIsOnly(t, doc, parent, z);
        PlaceBehindZero(t, doc, parent, z);
        forall s | s in sib && s != id && t[s].position == q
          ensures HeadTaken(t, doc, parent, id)
        {
          assert TakesHead(t, doc, parent, id, z, s);
        }
        forall u, y | TakesHead(t, doc, parent, id, u, y)
          ensures t[y].position == q
        {
          assert SameSiblings(t, u, z);
        }
      }
    }
  }

  /**
   * Distinct sibling positions stay distinct, whichever parent `after` belongs to, except
   * at one place: at the root, where UNIQUE does not bind, a head insertion repeats the
   * position behind an all-'0' sibling if it is taken.
   */
  lemma StaysDistinct(t: Table, doc: nat, op: Op)
    requires RankShape(t) && OneZero(t) && (op.Insert? || op.Move?) && Step(t, doc, op).1.Applied?
    requires Distinct(SiblingPositions(t, doc, op.parent))
    ensures Distinct(SiblingPositions(Step(t, doc, op).0, doc, op.parent)) <==>
              !(op.parent.None? && op.after.None? && HeadTaken(t, doc, op.parent, op.id))
  {
    PlacementFrame(t, doc, op);
    PlacedRow(t, doc, op);
    PlaceIsTakenIff(t, doc, op.parent, op.after, op.id);
    var ps, q := SiblingPositions(t, doc, op.parent), Place(t, doc, op.parent, op.after).value;
    DistinctWithIff(ps, op.id, q);
    assert forall s :: s in ps <==> s in Siblings(t, doc, op.parent);
    assert op.parent.Some? ==> !exists s :: s in ps && s != op.id && ps[s] == q;
  }

  /** An insert of a new block, or a move that is not stale, to an existing place: after nothing or after a child of the parent. */
  predicate Placeable(t: Table, doc: nat, op: Op)
    requires op.Insert? || op.Move?
  {
    && (if op.Insert? then op.id !in t else Live(t, doc, op.id) && !Stale(t[op.id], op.expected))
    && ParentOk(t, doc, op.parent)
    && (op.after.Some? ==> op.after.value in Siblings(t, doc, op.parent))
  }

  /** A well-aimed insert or move is refused in one case only, and then as a collision: below a parent, at a taken head. */
  lemma AppliedIff(t: Table, doc: nat, op: Op)
    requires RankShape(t) && OneZero(t) && (op.Insert? || op.Move?) && Placeable(t, doc, op)
    ensures var o := Step(t, doc, op).1;
            && (o.Applied? <==> !(op.parent.Some? && op.after.None? && HeadTaken(t, doc, op.parent, op.id)))
            && (o.Conflict? ==> o.reason == PositionCollision)
  {
    PlaceNeverRaises(t, doc, op.parent, op.after);
    PlaceIsTakenIff(t, doc, op.parent, op.after, op.id);
    var q := Place(t, doc, op.parent, op.after).value;
    assert Collides(t, op.id, doc, op.parent, q) <==>
        op.parent.Some? && exists s :: s in Siblings(t, doc, op.parent) && s != op.id && t[s].position == q;
  }

  // ----------------------------------------------------------------- versions

  /** An applied operation that raises the version of `id`. */
  ghost predicate Bumps(t: Table, doc: nat, op: Op, id: Id) {
    Step(t, doc, op).1.Applied? && op.id == id && (op.Move? || op.UpdateAttrs? || op.UpdateContent?)
  }

  /** One step changes the version of a block that is live before and after by one exactly when it bumps it. */
  lemma StepVersion(t: Table, doc: nat, op: Op, id: Id)
    requires id in t && id in Step(t, doc, op).0
    ensures Step(t, doc, op).0[id].version == t[id].version + if Bumps(t, doc, op, id) then 1 else 0
  {
    if op.Delete? && Live(t, doc, op.id) {
      UnderSelf(ParentsOf(t), op.id);
    }
  }

  /** Conflicts change nothing. */
  lemma ConflictChangesNothing(t: Table, doc: nat, op: Op)
    requires Step(t, doc, op).1.Conflict?
    ensures Step(t, doc, op).0 == t
    ensures Step(t, doc, op).1.current.Some? ==>
              op.id in t && Step(t, doc, op).1.current == Some(t[op.id])
  {
  }

  /** The number of applied move, attrs and content operations on `id` since it was last inserted. */
  ghost function BumpsSinceInsert(t: Table, ops: seq<Posted>, id: Id): nat {
    if ops == [] then 0
    else
      var last, before := ops[|ops| - 1], ops[..|ops| - 1];
      if last.op.Insert? && last.op.id == id && OutcomeAt(t, ops, |ops| - 1).Applied? then 0
      else BumpsSinceInsert(t, before, id) + if Bumps(Run(t, before), last.doc, last.op, id) then 1 else 0
  }

  /** A document table before any operation: nothing, or one seeded block "m" per document. */
  ghost predicate Initial(t: Table) {
    && (forall x :: x in t ==> t[x].parent.None? && t[x].position == DEFAULT_SEED && t[x].depth == 0 && t[x].version == 1)
    && (forall x, y :: x in t && y in t && t[x].doc == t[y].doc ==> x == y)
  }

  /** On every run a live block's version is 1 plus the operations applied to it since its insert. */
  lemma {:induction false} VersionCountsOperations(t: Table, ops: seq<Posted>, id: Id)
    requires Initial(t) && id in Run(t, ops)
    ensures Run(t, ops)[id].version == 1 + BumpsSinceInsert(t, ops, id)
  {
    if ops != [] {
      var last, before := ops[|ops| - 1], ops[..|ops| - 1];
      var s := Run(t, before);
      if id in s {
        VersionCountsOperations(t, before, id);
        StepVersion(s, last.doc, last.op, id);
      }
    }
  }

  /** `id` is live in every table from step `i` to step `j`. */
  ghost predicate LiveThroughout(t: Table, ops: seq<Posted>, id: Id, i: nat, j: nat) {
    forall k: nat :: i <= k <= j && k <= |ops| ==> id in Run(t, ops[..k])
  }

  lemma RunNext(t: Table, ops: seq<Posted>, i: nat)
    requires i < |ops|
    ensures Run(t, ops[..i + 1]) == Step(Run(t, ops[..i]), ops[i].doc, ops[i].op).0
  {
    assert ops[..i + 1][..i] == ops[..i];
  }

  lemma {:induction false} VersionsGrow(t: Table, ops: seq<Posted>, id: Id, i: nat, j: nat)
    requires i <= j <= |ops| && LiveThroughout(t, ops, id, i, j)
    ensures id in Run(t, ops[..i]) && id in Run(t, ops[..j])
    ensures Run(t, ops[..i])[id].version <= Run(t, ops[..j])[id].version
    decreases j
  {
    if i < j {
      VersionsGrow(t, ops, id, i, j - 1);
      VersionGrowsOnce(t, ops, id, j - 1);
    }
  }

  lemma VersionGrowsOnce(t: Table, ops: seq<Posted>, id: Id, k: nat)
    requires k < |ops| && id in Run(t, ops[..k]) && id in Run(t, ops[..k + 1])
    ensures Run(t, ops[..k])[id].version <= Run(t, ops[..k + 1])[id].version
  {
    RunNext(t, ops, k);
    StepVersion(Run(t, ops[..k]), ops[k].doc, ops[k].op, id);
  }

  function Expected(op: Op): Option<nat> {
    match op
    case Delete(_, e) => e
    case Move(_, _, _, e) => e
    case UpdateAttrs(_, _, e) => e
    case _ => None
  }

  /** Within one life of a block, at most one version-checked operation applies per expected version. */
  lemma OneWinnerPerVersion(t: Table, ops: seq<Posted>, id: Id, i: nat, j: nat)
    requires i < j < |ops| && LiveThroughout(t, ops, id, i, j)
    requires ops[i].op.id == id == ops[j].op.id
    requires Expected(ops[i].op).Some? && Expected(ops[j].op).Some?
    requires OutcomeAt(t, ops, i).Applied? && OutcomeAt(t, ops, j).Applied?
    requires Live(Run(t, ops[..i]), ops[i].doc, id) && Live(Run(t, ops[..j]), ops[j].doc, id)
    ensures Expected(ops[i].op).value < Expected(ops[j].op).value
  {
    var s := Run(t, ops[..i]);
    RunNext(t, ops, i);
    assert id in Run(t, ops[..i + 1]);
    if ops[i].op.Delete? {
      UnderSelf(ParentsOf(s), id);
    }
    StepVersion(s, ops[i].doc, ops[i].op, id);
    VersionsGrow(t, ops, id, i + 1, j);
  }

  // --------------------------------------------------------------------- runs

  lemma {:induction false} RunInvariant(t: Table, ops: seq<Posted>)
    requires Initial(t)
    ensures TreeOk(Run(t, ops)) && Shaped(Run(t, ops))
  {
    if ops != [] {
      var last, before := ops[|ops| - 1], ops[..|ops| - 1];
      RunInvariant(t, before);
      StepKeepsTree(Run(t, before), last.doc, last.op);
      StepKeepsShape(Run(t, before), last.doc, last.op);
    }
  }

  /** On every run, an insert after nothing or after a child of its parent is never refused for want of a rank. */
  lemma RunNeverRaises(t: Table, ops: seq<Posted>, doc: nat, parent: Option<Id>, after: Option<Id>)
    requires Initial(t)
    requires after.Some? ==> after.value in Siblings(Run(t, ops), doc, parent)
    ensures Place(Run(t, ops), doc, parent, after).Ok?
  {
    RunInvariant(t, ops);
    PlaceNeverRaises(Run(t, ops), doc, parent, after);
  }

  /** Every applied move of the run avoids the subtree of the moved block. */
  ghost predicate NoSelfNesting(t: Table, ops: seq<Posted>) {
    forall i: nat :: i < |ops| && OutcomeAt(t, ops, i).Applied? ==> !MovesIntoOwnSubtree(Run(t, ops[..i]), ops[i].op)
  }

  ghost predicate OnlyLeavesMove(t: Table, ops: seq<Posted>) {
    forall i: nat :: i < |ops| && OutcomeAt(t, ops, i).Applied? && ops[i].op.Move? ==>
      Childless(ParentsOf(Run(t, ops[..i])), ops[i].op.id)
  }

  lemma OutcomeOfPrefix(t: Table, ops: seq<Posted>, n: nat, i: nat)
    requires i < n <= |ops|
    ensures OutcomeAt(t, ops[..n], i) == OutcomeAt(t, ops, i) && Run(t, ops[..n][..i]) == Run(t, ops[..i])
  {
    assert ops[..n][..i] == ops[..i];
  }

  lemma PrefixNests(t: Table, ops: seq<Posted>, n: nat)
    requires n <= |ops| && NoSelfNesting(t, ops)
    ensures NoSelfNesting(t, ops[..n])
  {
    forall i: nat | i < n && OutcomeAt(t, ops[..n], i).Applied?
      ensures !MovesIntoOwnSubtree(Run(t, ops[..n][..i]), ops[..n][i].op)
    {
      OutcomeOfPrefix(t, ops, n, i);
    }
  }

  lemma PrefixMovesLeaves(t: Table, ops: seq<Posted>, n: nat)
    requires n <= |ops| && OnlyLeavesMove(t, ops)
    ensures OnlyLeavesMove(t, ops[..n])
  {
    forall i: nat | i < n && OutcomeAt(t, ops[..n], i).Applied? && ops[..n][i].op.Move?
      ensures Childless(ParentsOf(Run(t, ops[..n][..i])), ops[..n][i].op.id)
    {
      OutcomeOfPrefix(t, ops, n, i);
    }
  }

  lemma StepForest(t: Table, doc: nat, op: Op)
    requires TreeOk(t) && Acyclic(ParentsOf(t))
    requires Step(t, doc, op).1.Applied? ==> !MovesIntoOwnSubtree(t, op)
    ensures Acyclic(ParentsOf(Step(t, doc, op).0))
    ensures DepthsRight(t) && (Step(t, doc, op).1.Applied? && op.Move? ==> Childless(ParentsOf(t), op.id)) ==>
              DepthsRight(Step(t, doc, op).0)
  {
    if Step(t, doc, op).1.Applied? {
      StepAcyclicIff(t, doc, op);
      if DepthsRight(t) {
        StepDepthsIff(t, doc, op);
      }
    } else {
      ConflictChangesNothing(t, doc, op);
    }
  }

  /** Without self-nesting moves the forest stays acyclic; if moved blocks are leaves too, depths stay right. */
  lemma {:induction false} RunForest(t: Table, ops: seq<Posted>)
    requires Initial(t) && NoSelfNesting(t, ops)
    ensures Acyclic(ParentsOf(Run(t, ops)))
    ensures OnlyLeavesMove(t, ops) ==> DepthsRight(Run(t, ops))
  {
    if ops == [] {
      assert forall x :: x in t ==> AtDepth(ParentsOf(t), x, 0);
    } else {
      var n := |ops| - 1;
      PrefixNests(t, ops, n);
      RunForest(t, ops[..n]);
      RunInvariant(t, ops[..n]);
      assert OutcomeAt(t, ops, n) == Step(Run(t, ops[..n]), ops[n].doc, ops[n].op).1;
      if OnlyLeavesMove(t, ops) {
        PrefixMovesLeaves(t, ops, n);
      }
      StepForest(Run(t, ops[..n]), ops[n].doc, ops[n].op);
    }
  }
}
