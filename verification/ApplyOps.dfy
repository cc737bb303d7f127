/** The server's operation applier: apps/api/app/ops/apply.py over the table doc_blocks. */
module ApplyOps {
  import opened Wrappers
  import opened Ranks
  import opened Forest
  import opened Streams
  import opened Wire
  import opened ServerRanks

  datatype Row = Row(doc: nat, parent: Option<Id>, position: Rank, depth: nat, typ: string, content: Content, version: nat)
  type Table = map<Id, Row>

  datatype Op =
    | Insert(id: Id, typ: string, parent: Option<Id>, after: Option<Id>, content: Content)
    | Delete(id: Id, expected: Option<nat>)
    | Move(id: Id, parent: Option<Id>, after: Option<Id>, expected: Option<nat>)
    | UpdateAttrs(id: Id, patch: Attrs, expected: Option<nat>)
    | UpdateContent(id: Id, content: Content)
    | Unknown(id: Id)

  datatype Reason =
    | BlockExists | ParentNotFound | AfterNotFound | NoRank(error: RankError)
    | PositionCollision | BlockNotFound | StaleVersion | UnknownOp

  datatype Outcome =
    | Applied(op: WireOp)
    | Conflict(id: Id, current: Option<Row>, reason: Reason)

  // ------------------------------------------------------------ specification

  predicate Live(t: Table, doc: nat, id: Id) {
    id in t && t[id].doc == doc
  }

  predicate ParentOk(t: Table, doc: nat, parent: Option<Id>) {
    parent.Some? ==> Live(t, doc, parent.value)
  }

  /** The depth recorded for a block placed under `parent`. */
  function DepthUnder(t: Table, parent: Option<Id>): nat
    requires parent.Some? ==> parent.value in t
  {
    if parent.None? then 0 else t[parent.value].depth + 1
  }

  function Siblings(t: Table, doc: nat, parent: Option<Id>): set<Id> {
    set x | x in t && t[x].doc == doc && t[x].parent == parent
  }

  /** The siblings selected by `position > left`, all of them without a left bound. */
  function Beyond(t: Table, doc: nat, parent: Option<Id>, left: Option<Rank>): set<Id> {
    set x | x in Siblings(t, doc, parent) && (left.Some? ==> Lt(left.value, t[x].position))
  }

  /** ORDER BY position LIMIT 1 over the rows `ids`. */
  ghost predicate IsLeast(t: Table, ids: set<Id>, r: Option<Rank>)
    requires ids <= t.Keys
  {
    if ids == {} then r.None?
    else
      && r.Some?
      && (exists x :: x in ids && t[x].position == r.value)
      && (forall x :: x in ids ==> Le(r.value, t[x].position))
  }

  lemma {:induction false} LeastExists(t: Table, ids: set<Id>)
    requires ids <= t.Keys
    ensures exists r :: IsLeast(t, ids, r)
    decreases ids
  {
    if ids == {} {
      assert IsLeast(t, ids, None);
    } else {
      var x :| x in ids;
      LeastExists(t, ids - {x});
      var r :| IsLeast(t, ids - {x}, r);
      LeastWithOneMore(t, ids - {x}, r, x);
      assert ids - {x} + {x} == ids;
    }
  }

  lemma LeastWithOneMore(t: Table, ids: set<Id>, r: Option<Rank>, x: Id)
    requires ids <= t.Keys && x in t && IsLeast(t, ids, r)
    ensures IsLeast(t, ids + {x}, if r.None? || Lt(t[x].position, r.value) then Some(t[x].position) else r)
  {
    if r.Some? {
      LtTotal(t[x].position, r.value);
      if Lt(t[x].position, r.value) {
        forall y | y in ids
          ensures Le(t[x].position, t[y].position)
        {
          LeLtTransitive(t[x].position, r.value, t[y].position);
        }
      } else {
        var w :| w in ids && t[w].position == r.value;
        assert w in ids + {x};
      }
    }
  }

  lemma LeastUnique(t: Table, ids: set<Id>, r: Option<Rank>, s: Option<Rank>)
    requires ids <= t.Keys && IsLeast(t, ids, r) && IsLeast(t, ids, s)
    ensures r == s
  {
    if ids != {} && r != s {
      var x :| x in ids && t[x].position == r.value;
      var y :| y in ids && t[y].position == s.value;
      LtAsymmetric(r.value, s.value);
    }
  }

  ghost function Least(t: Table, ids: set<Id>): (r: Option<Rank>)
    requires ids <= t.Keys
    ensures IsLeast(t, ids, r)
  {
    LeastExists(t, ids);
    var r :| IsLeast(t, ids, r);
    r
  }

  function LeftBound(t: Table, after: Option<Id>): Option<Rank>
    requires after.Some? ==> after.value in t
  {
    if after.None? then None else Some(t[after.value].position)
  }

  /** The position for a block placed under `parent` after `after`. */
  ghost function Place(t: Table, doc: nat, parent: Option<Id>, after: Option<Id>): Result<Rank, Reason> {
    if after.Some? && !Live(t, doc, after.value) then Err(AfterNotFound)
    else
      var left := LeftBound(t, after);
      match Midpoint(left, Least(t, Beyond(t, doc, parent, left)))
      case Ok(r) => Ok(r)
      case Err(e) => Err(NoRank(e))
  }

  /** UNIQUE (doc_id, parent_id, position) for the row `id`; NULL parents are never equal. */
  predicate Collides(t: Table, id: Id, doc: nat, parent: Option<Id>, position: Rank) {
    parent.Some? && exists x :: x in t && x != id && t[x].doc == doc && t[x].parent == parent && t[x].position == position
  }

  function ParentsOf(t: Table): Parents {
    map x | x in t :: t[x].parent
  }

  /** The rows left by a delete that cascades along parent_id. */
  ghost function Cascade(t: Table, id: Id): Table {
    map x | x in t && !Under(ParentsOf(t), x, id) :: t[x]
  }

  /** Keys of the patch are set, those with a null value are removed. */
  function Patched(attrs: Attrs, patch: Attrs): Attrs {
    map k | k in attrs.Keys + patch.Keys && (k in patch ==> patch[k] != Null) ::
      if k in patch then patch[k] else attrs[k]
  }

  function MergeAttrs(existing: Content, patch: Attrs): Content {
    existing.(attrs := Some(Patched(AttrsOf(existing), patch)))
  }

  predicate Stale(row: Row, expected: Option<nat>) {
    expected.Some? && expected.value != row.version
  }

  ghost function InsertStep(t: Table, doc: nat, id: Id, typ: string, parent: Option<Id>, after: Option<Id>, content: Content)
    : (Table, Outcome)
  {
    if id in t then (t, Conflict(id, None, BlockExists))
    else if !ParentOk(t, doc, parent) then (t, Conflict(id, None, ParentNotFound))
    else
      var q := Place(t, doc, parent, after);
      if q.Err? then (t, Conflict(id, None, q.error))
      else if Collides(t, id, doc, parent, q.value) then (t, Conflict(id, None, PositionCollision))
      else
        var depth := DepthUnder(t, parent);
        (t[id := Row(doc, parent, q.value, depth, typ, content, 1)],
         Applied(WireOp(id, 1, InsertPayload(typ, parent, q.value, depth, content))))
  }

  ghost function DeleteStep(t: Table, doc: nat, id: Id, expected: Option<nat>): (Table, Outcome) {
    if !Live(t, doc, id) then (t, Applied(WireOp(id, 0, DeletePayload)))
    else if Stale(t[id], expected) then (t, Conflict(id, Some(t[id]), StaleVersion))
    else (Cascade(t, id), Applied(WireOp(id, t[id].version + 1, DeletePayload)))
  }

  ghost function MoveStep(t: Table, doc: nat, id: Id, parent: Option<Id>, after: Option<Id>, expected: Option<nat>): (Table, Outcome) {
    if !Live(t, doc, id) then (t, Conflict(id, None, BlockNotFound))
    else if Stale(t[id], expected) then (t, Conflict(id, Some(t[id]), StaleVersion))
    else if !ParentOk(t, doc, parent) then (t, Conflict(id, Some(t[id]), ParentNotFound))
    else
      var q := Place(t, doc, parent, after);
      if q.Err? then (t, Conflict(id, Some(t[id]), q.error))
      else if Collides(t, id, doc, parent, q.value) then (t, Conflict(id, Some(t[id]), PositionCollision))
      else
        var depth, version := DepthUnder(t, parent), t[id].version + 1;
        (t[id := t[id].(parent := parent, position := q.value, depth := depth, version := version)],
         Applied(WireOp(id, version, MovePayload(parent, q.value, depth))))
  }

  ghost function AttrsStep(t: Table, doc: nat, id: Id, patch: Attrs, expected: Option<nat>): (Table, Outcome) {
    if !Live(t, doc, id) then (t, Conflict(id, None, BlockNotFound))
    else if Stale(t[id], expected) then (t, Conflict(id, Some(t[id]), StaleVersion))
    else
      var version := t[id].version + 1;
      (t[id := t[id].(content := MergeAttrs(t[id].content, patch), version := version)],
       Applied(WireOp(id, version, AttrsPayload(patch))))
  }

  ghost function ContentStep(t: Table, doc: nat, id: Id, content: Content): (Table, Outcome) {
    if !Live(t, doc, id) then (t, Conflict(id, None, BlockNotFound))
    else
      var version := t[id].version + 1;
      (t[id := t[id].(content := content, version := version)],
       Applied(WireOp(id, version, ContentPayload(content))))
  }

  ghost function Step(t: Table, doc: nat, op: Op): (Table, Outcome) {
    match op
    case Insert(id, typ, parent, after, content) => InsertStep(t, doc, id, typ, parent, after, content)
    case Delete(id, expected) => DeleteStep(t, doc, id, expected)
    case Move(id, parent, after, expected) => MoveStep(t, doc, id, parent, after, expected)
    case UpdateAttrs(id, patch, expected) => AttrsStep(t, doc, id, patch, expected)
    case UpdateContent(id, content) => ContentStep(t, doc, id, content)
    case Unknown(id) => (t, Conflict(id, None, UnknownOp))
  }

  /** An operation posted to a document. */
  datatype Posted = Posted(doc: nat, op: Op)

  /** Operations posted to one document. */
  function PostedTo(doc: nat, ops: seq<Op>): (posted: seq<Posted>)
    ensures |posted| == |ops|
  {
    seq(|ops|, i requires 0 <= i < |ops| => Posted(doc, ops[i]))
  }

  /** The table after posting `ops` one by one. */
  ghost function Run(t: Table, ops: seq<Posted>): Table {
    if ops == [] then t
    else
      var last := ops[|ops| - 1];
      Step(Run(t, ops[..|ops| - 1]), last.doc, last.op).0
  }

  ghost function OutcomeAt(t: Table, ops: seq<Posted>, i: nat): Outcome
    requires i < |ops|
  {
    Step(Run(t, ops[..i]), ops[i].doc, ops[i].op).1
  }

  ghost function Outcomes(t: Table, ops: seq<Posted>): seq<Outcome> {
    seq(|ops|, i requires 0 <= i < |ops| => OutcomeAt(t, ops, i))
  }

  /** The wire operations of the applied outcomes, in order. */
  function AppliedOps(outcomes: seq<Outcome>): seq<WireOp> {
    if outcomes == [] then []
    else
      var last := outcomes[|outcomes| - 1];
      AppliedOps(outcomes[..|outcomes| - 1]) + (if last.Applied? then [last.op] else [])
  }

  /** What the caller of /operations is told about one operation; a conflict reports version 0. */
  datatype OpResult = OpApplied(id: Id, newVersion: nat) | OpConflict(id: Id, newVersion: nat, current: Option<Row>)

  datatype Answer = Answer(results: seq<OpResult>, streamId: Option<StreamId>)

  function ResultOf(o: Outcome): OpResult {
    match o
    case Applied(w) => OpApplied(w.id, w.version)
    case Conflict(id, current, _) => OpConflict(id, 0, current)
  }

  // ----------------------------------------------------------------- programs

  /** Shallow merge on a copy of the attributes, one key of the patch at a time. */
  method ComputeMergedAttrs(existing: Content, patch: Attrs) returns (out: Content)
    ensures out == MergeAttrs(existing, patch)
  {
    var attrs := AttrsOf(existing);
    var todo := patch.Keys;
    while todo != {}
      invariant todo <= patch.Keys
      invariant attrs == Patched(AttrsOf(existing), map k | k in patch && k !in todo :: patch[k])
    {
      var k :| k in todo;
      if patch[k] == Null {
        attrs := attrs - {k};
      } else {
        attrs := attrs[k := patch[k]];
      }
      todo := todo - {k};
    }
    assert (map k | k in patch && k !in todo :: patch[k]) == patch;
    out := existing.(attrs := Some(attrs));
  }

  class DocBlocks {
    var rows: Table

    constructor (initial: Table)
      ensures rows == initial
    {
      rows := initial;
    }

    method SelectFirst(ids: set<Id>) returns (r: Option<Rank>)
      requires ids <= rows.Keys
      ensures r == Least(rows, ids)
    {
      r := None;
      var todo := ids;
      while todo != {}
        invariant todo <= ids
        invariant IsLeast(rows, ids - todo, r)
      {
        var x :| x in todo;
        LeastWithOneMore(rows, ids - todo, r, x);
        assert ids - todo + {x} == ids - (todo - {x});
        if r.None? || Lt(rows[x].position, r.value) {
          r := Some(rows[x].position);
        }
        todo := todo - {x};
      }
      assert ids - todo == ids;
      LeastUnique(rows, ids, r, Least(rows, ids));
    }

    method ComputePosition(doc: nat, parent: Option<Id>, after: Option<Id>) returns (r: Result<Rank, Reason>)
      ensures r == Place(rows, doc, parent, after)
    {
      var left: Option<Rank> := None;
      if after.Some? {
        if !Live(rows, doc, after.value) {
          return Err(AfterNotFound);
        }
        left := Some(rows[after.value].position);
      }
      var right := SelectFirst(Beyond(rows, doc, parent, left));
      var m := ComputeMidpoint(left, right);
      r := if m.Ok? then Ok(m.value) else Err(NoRank(m.error));
    }

    method InsertBlock(doc: nat, id: Id, typ: string, parent: Option<Id>, after: Option<Id>, content: Content) returns (o: Outcome)
      modifies this
      ensures (rows, o) == InsertStep(old(rows), doc, id, typ, parent, after, content)
    {
      if id in rows {
        return Conflict(id, None, BlockExists);
      }
      if !ParentOk(rows, doc, parent) {
        return Conflict(id, None, ParentNotFound);
      }
      var depth := DepthUnder(rows, parent);
      var position := ComputePosition(doc, parent, after);
      if position.Err? {
        return Conflict(id, None, position.error);
      }
      if Collides(rows, id, doc, parent, position.value) {
        return Conflict(id, None, PositionCollision);
      }
      rows := rows[id := Row(doc, parent, position.value, depth, typ, content, 1)];
      o := Applied(WireOp(id, 1, InsertPayload(typ, parent, position.value, depth, content)));
    }

    /** The foreign key's ON DELETE CASCADE: removes the target, then level by level what points into the removed rows. */
    method DeleteCascading(id: Id)
      requires id in rows
      modifies this
      ensures rows == Cascade(old(rows), id)
    {
      ghost var ps := ParentsOf(rows);
      var gone := {id};
      UnderSelf(ps, id);
      var next := set x | x in rows && x !in gone && rows[x].parent.Some? && rows[x].parent.value in gone;
      while next != {}
        invariant id in gone && gone <= rows.Keys
        invariant next == set x | x in rows && x !in gone && rows[x].parent.Some? && rows[x].parent.value in gone
        invariant forall x :: x in gone ==> Under(ps, x, id)
        decreases rows.Keys - gone
      {
        forall x | x in next
          ensures Under(ps, x, id)
        {
          UnderParent(ps, x, id);
        }
        gone := gone + next;
        next := set x | x in rows && x !in gone && rows[x].parent.Some? && rows[x].parent.value in gone;
      }
      assert forall y :: y in rows && rows[y].parent.Some? && rows[y].parent.value in gone ==> y !in gone ==> y in next;
      forall x | x in rows && Under(ps, x, id)
        ensures x in gone
      {
        var k: nat :| Climbs(ps, x, id, k);
        ClosedDownwards(rows, gone, id, x, k);
      }
      rows := map x | x in rows && x !in gone :: rows[x];
    }

    method DeleteBlock(doc: nat, id: Id, expected: Option<nat>) returns (o: Outcome)
      modifies this
      ensures (rows, o) == DeleteStep(old(rows), doc, id, expected)
    {
      if !Live(rows, doc, id) {
        return Applied(WireOp(id, 0, DeletePayload));
      }
      if Stale(rows[id], expected) {
        return Conflict(id, Some(rows[id]), StaleVersion);
      }
      var version := rows[id].version;
      DeleteCascading(id);
      o := Applied(WireOp(id, version + 1, DeletePayload));
    }

    method MoveBlock(doc: nat, id: Id, parent: Option<Id>, after: Option<Id>, expected: Option<nat>) returns (o: Outcome)
      modifies this
      ensures (rows, o) == MoveStep(old(rows), doc, id, parent, after, expected)
    {
      if !Live(rows, doc, id) {
        return Conflict(id, None, BlockNotFound);
      }
      var row := rows[id];
      if Stale(row, expected) {
        return Conflict(id, Some(row), StaleVersion);
      }
      if !ParentOk(rows, doc, parent) {
        return Conflict(id, Some(row), ParentNotFound);
      }
      var depth := DepthUnder(rows, parent);
      var position := ComputePosition(doc, parent, after);
      if position.Err? {
        return Conflict(id, Some(row), position.error);
      }
      if Collides(rows, id, doc, parent, position.value) {
        return Conflict(id, Some(row), PositionCollision);
      }
      rows := rows[id := row.(parent := parent, position := position.value, depth := depth, version := row.version + 1)];
      o := Applied(WireOp(id, row.version + 1, MovePayload(parent, position.value, depth)));
    }

    method UpdateAttributes(doc: nat, id: Id, patch: Attrs, expected: Option<nat>) returns (o: Outcome)
      modifies this
      ensures (rows, o) == AttrsStep(old(rows), doc, id, patch, expected)
    {
      if !Live(rows, doc, id) {
        return Conflict(id, None, BlockNotFound);
      }
      var row := rows[id];
      if Stale(row, expected) {
        return Conflict(id, Some(row), StaleVersion);
      }
      var content := ComputeMergedAttrs(row.content, patch);
      rows := rows[id := row.(content := content, version := row.version + 1)];
      o := Applied(WireOp(id, row.version + 1, AttrsPayload(patch)));
    }

    method OverwriteContent(doc: nat, id: Id, content: Content) returns (o: Outcome)
      modifies this
      ensures (rows, o) == ContentStep(old(rows), doc, id, content)
    {
      if !Live(rows, doc, id) {
        return Conflict(id, None, BlockNotFound);
      }
      var row := rows[id];
      rows := rows[id := row.(content := content, version := row.version + 1)];
      o := Applied(WireOp(id, row.version + 1, ContentPayload(content)));
    }

    method ApplyOp(doc: nat, op: Op) returns (o: Outcome)
      modifies this
      ensures (rows, o) == Step(old(rows), doc, op)
    {
      match op
      case Insert(id, typ, parent, after, content) => o := InsertBlock(doc, id, typ, parent, after, content);
      case Delete(id, expected) => o := DeleteBlock(doc, id, expected);
      case Move(id, parent, after, expected) => o := MoveBlock(doc, id, parent, after, expected);
      case UpdateAttrs(id, patch, expected) => o := UpdateAttributes(doc, id, patch, expected);
      case UpdateContent(id, content) => o := OverwriteContent(doc, id, content);
      case Unknown(id) => o := Conflict(id, None, UnknownOp);
    }

    /** The transaction of a POST: all operations in order; `applied` collects the applied ones. */
    method ApplyAll(doc: nat, ops: seq<Op>) returns (outcomes: seq<Outcome>, applied: seq<WireOp>)
      modifies this
      ensures rows == Run(old(rows), PostedTo(doc, ops))
      ensures outcomes == Outcomes(old(rows), PostedTo(doc, ops)) && applied == AppliedOps(outcomes)
    {
      outcomes, applied := [], [];
      for i := 0 to |ops|
        invariant rows == Run(old(rows), PostedTo(doc, ops[..i]))
        invariant outcomes == Outcomes(old(rows), PostedTo(doc, ops[..i]))
        invariant applied == AppliedOps(outcomes)
      {
        PostedNext(old(rows), doc, ops, i);
        var o := ApplyOp(doc, ops[i]);
        AppliedNext(outcomes, o);
        outcomes := outcomes + [o];
        if o.Applied? {
          applied := applied + [o.op];
        }
      }
      assert ops[..|ops|] == ops;
    }

    /**
     * One POST to /operations; `added` is the id XADD answers with, None if it fails.  The
     * caller is told the results and that id; the applied operations are appended under it,
     * recorded under it, and published with it, all of that only if there are any.  A failing
     * append stops the record, but neither the publish nor the answer.
     */
    method PostOperations(doc: nat, ops: seq<Op>, added: Option<StreamId>, busUp: bool)
      returns (answer: Answer, appended: Option<seq<WireOp>>, recorded: seq<(StreamId, WireOp)>,
               published: Option<(seq<WireOp>, Option<StreamId>)>)
      modifies this
      ensures rows == Run(old(rows), PostedTo(doc, ops))
      ensures |answer.results| == |ops|
      ensures forall i :: 0 <= i < |ops| ==> answer.results[i] == ResultOf(OutcomeAt(old(rows), PostedTo(doc, ops), i))
      ensures var applied := AppliedOps(Outcomes(old(rows), PostedTo(doc, ops)));
              var id := if applied != [] then added else None;
              && answer.streamId == id
              && appended == (if id.Some? then Some(applied) else None)
              && |recorded| == (if id.Some? then |applied| else 0)
              && (forall i :: 0 <= i < |recorded| ==> recorded[i] == (id.value, applied[i]))
              && published == (if applied != [] && busUp then Some((applied, id)) else None)
    {
      var outcomes, wireOps := ApplyAll(doc, ops);
      var results := BuildResults(outcomes);
      appended, recorded, published := None, [], None;
      var streamId: Option<StreamId> := None;
      if wireOps != [] {
        streamId := added;
        if streamId.Some? {
          appended := Some(wireOps);
          for i := 0 to |wireOps|
            invariant |recorded| == i && forall j :: 0 <= j < i ==> recorded[j] == (streamId.value, wireOps[j])
          {
            recorded := recorded + [(streamId.value, wireOps[i])];
          }
        }
        if busUp {
          published := Some((wireOps, streamId));
        }
      }
      answer := Answer(results, streamId);
    }
  }

  method BuildResults(outcomes: seq<Outcome>) returns (results: seq<OpResult>)
    ensures |results| == |outcomes| && forall i :: 0 <= i < |outcomes| ==> results[i] == ResultOf(outcomes[i])
  {
    results := [];
    for i := 0 to |outcomes|
      invariant |results| == i && forall j :: 0 <= j < i ==> results[j] == ResultOf(outcomes[j])
    {
      results := results + [ResultOf(outcomes[i])];
    }
  }

  lemma PostedNext(t: Table, doc: nat, ops: seq<Op>, i: nat)
    requires i < |ops|
    ensures var before, now := PostedTo(doc, ops[..i]), PostedTo(doc, ops[..i + 1]);
            && Run(t, now) == Step(Run(t, before), doc, ops[i]).0
            && Outcomes(t, now) == Outcomes(t, before) + [Step(Run(t, before), doc, ops[i]).1]
  {
    var before, now := PostedTo(doc, ops[..i]), PostedTo(doc, ops[..i + 1]);
    assert now[..i] == before && now[i] == Posted(doc, ops[i]);
    assert forall j: nat :: j < i ==> before[..j] == now[..j];
  }

  lemma AppliedNext(outcomes: seq<Outcome>, o: Outcome)
    ensures AppliedOps(outcomes + [o]) == AppliedOps(outcomes) + if o.Applied? then [o.op] else []
  {
    assert (outcomes + [o])[..|outcomes|] == outcomes;
  }

  lemma {:induction false} ClosedDownwards(t: Table, gone: set<Id>, id: Id, x: Id, k: nat)
    requires id in gone
    requires forall y :: y in t && t[y].parent.Some? && t[y].parent.value in gone ==> y in gone
    requires Climbs(ParentsOf(t), x, id, k)
    ensures x in gone
    decreases k
  {
    if k > 0 {
      ClosedDownwards(t, gone, id, t[x].parent.value, k - 1);
    }
  }
}
