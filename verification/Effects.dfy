/** What an operation does to the table and puts on the wire, told by the operation itself: apps/api/app/ops/apply.py. */
module Effects {
  import opened Wrappers
  import opened Ranks
  import opened Forest
  import opened Wire
  import opened ServerRanks
  import opened ApplyOps
  import opened ApplyProperties

  predicate IsThere(t: Table, doc: nat, id: Id) {
    id in t && t[id].doc == doc
  }

  /** One level below the parent, or 0 at the root; the parent is a block of the document. */
  predicate IsLevelBelow(t: Table, doc: nat, parent: Option<Id>, depth: nat) {
    if parent.None? then depth == 0 else IsThere(t, doc, parent.value) && depth == t[parent.value].depth + 1
  }

  /** Nothing but the row of `id` changes. */
  ghost predicate OnlyRow(t: Table, t': Table, id: Id) {
    t'.Keys == t.Keys + {id} && forall x :: x in t && x != id ==> t'[x] == t[x]
  }

  /** The block is as posted, below its parent, at version 1; the wire says the same. */
  lemma InsertEffect(t: Table, doc: nat, op: Op)
    requires op.Insert? && Step(t, doc, op).1.Applied?
    ensures var t', w := Step(t, doc, op).0, Step(t, doc, op).1.op;
            && op.id !in t && OnlyRow(t, t', op.id)
            && var r := t'[op.id];
               && r.doc == doc && r.parent == op.parent && r.typ == op.typ && r.content == op.content && r.version == 1
               && IsLevelBelow(t, doc, op.parent, r.depth)
               && w == WireOp(op.id, 1, InsertPayload(op.typ, op.parent, r.position, r.depth, op.content))
  {
  }

  /** Type and content stay, the version grows by one, and the depth is that below the new parent. */
  lemma MoveEffect(t: Table, doc: nat, op: Op)
    requires op.Move? && Step(t, doc, op).1.Applied?
    ensures var t', w := Step(t, doc, op).0, Step(t, doc, op).1.op;
            && IsThere(t, doc, op.id) && OnlyRow(t, t', op.id)
            && var r, was := t'[op.id], t[op.id];
               && r.doc == doc && r.parent == op.parent && r.typ == was.typ && r.content == was.content && r.version == was.version + 1
               && IsLevelBelow(t, doc, op.parent, r.depth)
               && w == WireOp(op.id, r.version, MovePayload(op.parent, r.position, r.depth))
  {
  }

  /**
   * Key by key: a patched key has the patch's value, a key patched with null is gone, every
   * other key is as before.  Body, type and place stay, and the wire carries the patch.
   */
  lemma AttrsEffect(t: Table, doc: nat, op: Op, k: string)
    requires op.UpdateAttrs? && Step(t, doc, op).1.Applied?
    ensures var t', w := Step(t, doc, op).0, Step(t, doc, op).1.op;
            && IsThere(t, doc, op.id) && OnlyRow(t, t', op.id)
            && var r, was := t'[op.id], t[op.id];
               && r.content.attrs.Some?
               && var now, before := r.content.attrs.value, if was.content.attrs.Some? then was.content.attrs.value else map[];
                  && (k in op.patch && op.patch[k] != Null ==> k in now && now[k] == op.patch[k])
                  && (k in op.patch && op.patch[k] == Null ==> k !in now)
                  && (k !in op.patch ==> (k in now <==> k in before) && (k in before ==> now[k] == before[k]))
    ensures var t', w := Step(t, doc, op).0, Step(t, doc, op).1.op;
            var r, was := t'[op.id], t[op.id];
            && r.doc == doc && r.parent == was.parent && r.position == was.position && r.depth == was.depth && r.typ == was.typ
            && r.content.body == was.content.body && r.version == was.version + 1
            && w == WireOp(op.id, r.version, AttrsPayload(op.patch))
  {
  }

  lemma ContentEffect(t: Table, doc: nat, op: Op)
    requires op.UpdateContent? && Step(t, doc, op).1.Applied?
    ensures var t', w := Step(t, doc, op).0, Step(t, doc, op).1.op;
            && IsThere(t, doc, op.id) && OnlyRow(t, t', op.id)
            && var r, was := t'[op.id], t[op.id];
               && r.doc == doc && r.parent == was.parent && r.position == was.position && r.depth == was.depth && r.typ == was.typ
               && r.content == op.content && r.version == was.version + 1
               && w == WireOp(op.id, r.version, ContentPayload(op.content))
  {
  }

  /** The block is gone, and a delete of a missing block changes nothing; both are put on the wire. */
  lemma DeleteEffect(t: Table, doc: nat, op: Op)
    requires op.Delete? && Step(t, doc, op).1.Applied?
    ensures var t', w := Step(t, doc, op).0, Step(t, doc, op).1.op;
            if IsThere(t, doc, op.id) then op.id !in t' && w == WireOp(op.id, t[op.id].version + 1, DeletePayload)
            else t' == t && w == WireOp(op.id, 0, DeletePayload)
  {
    if IsThere(t, doc, op.id) {
      UnderSelf(ParentsOf(t), op.id);
    }
  }

  // ------------------------------------------------------------------- the verdict

  /** These name the version they expect, and are answered with the present row. */
  predicate TakesVersion(op: Op) {
    op.Delete? || op.Move? || op.UpdateAttrs?
  }

  predicate ExpectsOther(t: Table, doc: nat, id: Id, expected: Option<nat>) {
    IsThere(t, doc, id) && expected.Some? && expected.value != t[id].version
  }

  /** There is no such parent or sibling, no rank, or the rank is that of another child of the parent. */
  ghost predicate NoPlace(t: Table, doc: nat, id: Id, parent: Option<Id>, after: Option<Id>) {
    || (parent.Some? && !IsThere(t, doc, parent.value))
    || (after.Some? && !IsThere(t, doc, after.value))
    || Place(t, doc, parent, after).Err?
    || (parent.Some? && exists x :: x in t && x != id && t[x].doc == doc && t[x].parent == parent
                                      && t[x].position == Place(t, doc, parent, after).value)
  }

  /** Exactly when an operation is refused. */
  ghost predicate Refused(t: Table, doc: nat, op: Op) {
    match op
    case Insert(id, _, parent, after, _) => id in t || NoPlace(t, doc, id, parent, after)
    case Delete(id, expected) => ExpectsOther(t, doc, id, expected)
    case Move(id, parent, after, expected) =>
      !IsThere(t, doc, id) || ExpectsOther(t, doc, id, expected) || NoPlace(t, doc, id, parent, after)
    case UpdateAttrs(id, _, expected) => !IsThere(t, doc, id) || ExpectsOther(t, doc, id, expected)
    case UpdateContent(id, _) => !IsThere(t, doc, id)
    case Unknown(_) => true
  }

  /**
   * The verdict on every operation: refused exactly in these cases; as stale exactly if
   * it expects another version of a block that is there; and with the present row for a
   * delete, move or attrs update of such a block.
   */
  lemma RefusedIff(t: Table, doc: nat, op: Op)
    ensures var o := Step(t, doc, op).1;
            && (o.Conflict? <==> Refused(t, doc, op))
            && (o.Conflict? ==>
                  && o.id == op.id
                  && (o.reason == StaleVersion <==> TakesVersion(op) && ExpectsOther(t, doc, op.id, op.expected))
                  && o.current == (if TakesVersion(op) && IsThere(t, doc, op.id) then Some(t[op.id]) else None))
  {
  }

  /** Why a place is refused: the parent, the sibling, the rank, and the collision are looked at in this order. */
  ghost function PlaceReason(t: Table, doc: nat, parent: Option<Id>, after: Option<Id>): Reason {
    if parent.Some? && !IsThere(t, doc, parent.value) then ParentNotFound
    else if after.Some? && !IsThere(t, doc, after.value) then AfterNotFound
    else if Place(t, doc, parent, after).Err? then Place(t, doc, parent, after).error
    else PositionCollision
  }

  /** The reasons other than a stale version. */
  lemma ReasonIs(t: Table, doc: nat, op: Op)
    requires Refused(t, doc, op) && !(TakesVersion(op) && ExpectsOther(t, doc, op.id, op.expected))
    ensures var o := Step(t, doc, op).1;
            o.Conflict? &&
              match op
              case Insert(id, _, parent, after, _) =>
                o.reason == if id in t then BlockExists else PlaceReason(t, doc, parent, after)
              case Move(id, parent, after, _) =>
                o.reason == if !IsThere(t, doc, id) then BlockNotFound else PlaceReason(t, doc, parent, after)
              case Unknown(_) => o.reason == UnknownOp
              case _ => o.reason == BlockNotFound
  {
  }

  /** What the caller of /operations is told about one operation. */
  lemma AnswerIs(t: Table, doc: nat, op: Op)
    ensures var o := Step(t, doc, op).1;
            ResultOf(o) == if Refused(t, doc, op)
                           then OpConflict(op.id, 0, if TakesVersion(op) && IsThere(t, doc, op.id) then Some(t[op.id]) else None)
                           else OpApplied(op.id, if op.Insert? then 1 else if IsThere(t, doc, op.id) then t[op.id].version + 1 else 0)
  {
    RefusedIff(t, doc, op);
  }

  // ------------------------------------------------------------------ the position

  /** The children of the parent that lie beyond `after`; all of them without it. */
  ghost predicate IsBeyond(t: Table, doc: nat, parent: Option<Id>, after: Option<Id>, x: Id) {
    && IsThere(t, doc, x) && t[x].parent == parent
    && (after.Some? ==> after.value in t && Lt(t[after.value].position, t[x].position))
  }

  ghost predicate NoneBeyond(t: Table, doc: nat, parent: Option<Id>, after: Option<Id>) {
    forall x :: !IsBeyond(t, doc, parent, after, x)
  }

  /** `x` is the next one: beyond `after`, and no other is before it. */
  ghost predicate IsNext(t: Table, doc: nat, parent: Option<Id>, after: Option<Id>, x: Id) {
    IsBeyond(t, doc, parent, after, x) && forall y :: IsBeyond(t, doc, parent, after, y) ==> y in t && Le(t[x].position, t[y].position)
  }

  /** With nothing beyond, the first block gets "m", and any other one the position of `after` and an "i". */
  lemma LastPosition(t: Table, doc: nat, op: Op)
    requires (op.Insert? || op.Move?) && Step(t, doc, op).1.Applied? && NoneBeyond(t, doc, op.parent, op.after)
    ensures op.id in Step(t, doc, op).0
    ensures op.after.Some? ==> op.after.value in t
    ensures Step(t, doc, op).0[op.id].position == if op.after.None? then [109] else t[op.after.value].position + [105]
  {
    PlacedRow(t, doc, op);
    BeyondIff(t, doc, op.parent, op.after);
    assert Beyond(t, doc, op.parent, LeftBound(t, op.after)) == {};
  }

  lemma BeyondIff(t: Table, doc: nat, parent: Option<Id>, after: Option<Id>)
    requires after.Some? ==> after.value in t
    ensures forall x :: x in Beyond(t, doc, parent, LeftBound(t, after)) <==> IsBeyond(t, doc, parent, after, x)
  {
  }

  /** Otherwise it gets the midpoint of the position of `after` and that of the next child. */
  lemma NextPosition(t: Table, doc: nat, op: Op, x: Id)
    requires (op.Insert? || op.Move?) && Step(t, doc, op).1.Applied? && IsNext(t, doc, op.parent, op.after, x)
    ensures op.id in Step(t, doc, op).0 && x in t
    ensures op.after.Some? ==> op.after.value in t
    ensures Ok(Step(t, doc, op).0[op.id].position) ==
              if op.after.None? then Before(t[x].position) else Between(t[op.after.value].position, t[x].position)
  {
    PlacedRow(t, doc, op);
    BeyondIff(t, doc, op.parent, op.after);
    var beyond := Beyond(t, doc, op.parent, LeftBound(t, op.after));
    assert x in beyond && IsLeast(t, beyond, Some(t[x].position));
    LeastUnique(t, beyond, Least(t, beyond), Some(t[x].position));
  }
}
