/**
 * The version a client holds of a block, against the server's, while posts, streamed
 * operations, replies and local edits interleave: apps/web/src/store/block-store.ts,
 * apps/ws/src/handlers/ops.ts and apps/api/app/routes/blocks.py.
 */
module Versions {
  import opened Wrappers
  import opened Forest
  import opened Wire
  import opened ApplyProperties
  import opened BlockIndex
  import opened Ranks
  import opened Replica
  import Reordering
  import S = ApplyOps
  import C = BlockStore

  /**
   * An operation of anybody reaches the api server; or something happens at the client:
   * the streamed form of the `n`-th operation arrives, an ack for it does, the user edits
   * the structure or writes a block's content, or a nack arrives.  Echoes and acks may
   * come in any order, each any time after its post.
   */
  datatype Event =
    | Posts(posted: S.Posted)
    | Echoes(n: nat)
    | Acks(n: nat)
    | Edits(edit: C.Edit, after: Blocks)
    | Writes(id: Id, content: Content)
    | Nacks(conflicts: seq<(Id, Option<Block>)>)

  // -------------------------------------------------------------------------- runs

  function PostedIn(events: seq<Event>): seq<S.Posted> {
    if events == [] then []
    else
      var last := events[|events| - 1];
      PostedIn(events[..|events| - 1]) + if last.Posts? then [last.posted] else []
  }

  ghost function Server(t: S.Table, events: seq<Event>): S.Table {
    S.Run(t, PostedIn(events))
  }

  /** The result handed to handleAck; a conflict is acknowledged too, with version 0. */
  function Acked(b: Blocks, o: S.Outcome): Blocks {
    C.SetVersions(b, [(S.ResultOf(o).id, S.ResultOf(o).newVersion)])
  }

  function Echoed(b: Blocks, o: S.Outcome): Blocks {
    if o.Applied? then C.RemoteStep(b, o.op) else b
  }

  /** The `n`-th operation has been posted, to this document. */
  predicate Known(posted: seq<S.Posted>, doc: nat, n: nat) {
    n < |posted| && posted[n].doc == doc
  }

  ghost function ClientStep(t: S.Table, posted: seq<S.Posted>, doc: nat, b: Blocks, ev: Event): Blocks {
    match ev
    case Posts(_) => b
    case Echoes(n) => if Known(posted, doc, n) then Echoed(b, S.OutcomeAt(t, posted, n)) else b
    case Acks(n) => if Known(posted, doc, n) then Acked(b, S.OutcomeAt(t, posted, n)) else b
    case Edits(e, after) => if C.EditStep(b, after, e) then after else b
    case Writes(id, content) => if id in b then b[id := b[id].(content := content)] else b
    case Nacks(conflicts) => C.Rebase(b, conflicts)
  }

  /** The client of document `doc`, which started from `b`. */
  ghost function Client(t: S.Table, events: seq<Event>, doc: nat, b: Blocks): Blocks {
    if events == [] then b
    else
      var before := events[..|events| - 1];
      ClientStep(t, PostedIn(before), doc, Client(t, before, doc, b), events[|events| - 1])
  }

  // ----------------------------------------------------------- who sets the version

  /** What a block's version at the client comes from. */
  datatype Setter = Start | ByEcho(n: nat) | ByAck(n: nat) | ByEdit | ByNack(version: nat)

  function NackSetter(conflicts: seq<(Id, Option<Block>)>, id: Id, s: Setter): Setter {
    if conflicts == [] then s
    else
      var (x, current) := conflicts[|conflicts| - 1];
      if x == id && current.Some? then ByNack(current.value.version) else NackSetter(conflicts[..|conflicts| - 1], id, s)
  }

  /** An echo of it sets the version: an insert, or an attrs or content update, of the block. */
  predicate EchoSetting(o: S.Outcome, id: Id) {
    o.Applied? && o.op.id == id && (o.op.payload.InsertPayload? || o.op.payload.AttrsPayload? || o.op.payload.ContentPayload?)
  }

  /**
   * Who has set the version after the event, `s` being who had before: the echo of an
   * insert or of an attrs or content update, an ack, a local insert, or a nack that
   * carries the block.  Echoed moves and all other local edits leave the version.
   */
  ghost function SetterAfter(t: S.Table, posted: seq<S.Posted>, doc: nat, b: Blocks, ev: Event, id: Id, s: Setter): Setter {
    match ev
    case Echoes(n) => if Known(posted, doc, n) && EchoSetting(S.OutcomeAt(t, posted, n), id) then ByEcho(n) else s
    case Acks(n) => if Known(posted, doc, n) && S.ResultOf(S.OutcomeAt(t, posted, n)).id == id then ByAck(n) else s
    case Edits(e, after) => if e.EditInsert? && e.id == id && C.EditStep(b, after, e) then ByEdit else s
    case Nacks(conflicts) => NackSetter(conflicts, id, s)
    case _ => s
  }

  /** Who set the version last. */
  ghost function LastSetter(t: S.Table, events: seq<Event>, doc: nat, b: Blocks, id: Id): Setter {
    if events == [] then Start
    else
      var before := events[..|events| - 1];
      SetterAfter(t, PostedIn(before), doc, Client(t, before, doc, b), events[|events| - 1], id, LastSetter(t, before, doc, b, id))
  }

  /** The version it sets: an ack what it reports, an echoed update the server's version plus one, an insert 1. */
  ghost function VersionBy(t: S.Table, posted: seq<S.Posted>, s: Setter, start: nat): nat {
    match s
    case Start => start
    case ByEcho(n) =>
      if n < |posted| && S.OutcomeAt(t, posted, n).Applied? && !S.OutcomeAt(t, posted, n).op.payload.InsertPayload?
      then S.OutcomeAt(t, posted, n).op.version + 1 else 1
    case ByAck(n) => if n < |posted| then S.ResultOf(S.OutcomeAt(t, posted, n)).newVersion else 0
    case ByEdit => 1
    case ByNack(version) => version
  }

  ghost function LastSet(t: S.Table, events: seq<Event>, doc: nat, b: Blocks, id: Id): nat {
    VersionBy(t, PostedIn(events), LastSetter(t, events, doc, b, id), if id in b then b[id].version else 0)
  }

  lemma AckedSets(b: Blocks, o: S.Outcome)
    ensures Acked(b, o) ==
              var id := S.ResultOf(o).id;
              if id in b then b[id := b[id].(version := S.ResultOf(o).newVersion)] else b
  {
    var results := [(S.ResultOf(o).id, S.ResultOf(o).newVersion)];
    assert results[..0] == [];
    assert C.SetVersions(b, []) == b;
  }

  /** The setter was about this block. */
  ghost predicate SetterOk(t: S.Table, posted: seq<S.Posted>, id: Id, s: Setter) {
    && (s.ByEcho? ==> s.n < |posted| && EchoSetting(S.OutcomeAt(t, posted, s.n), id))
    && (s.ByAck? ==> s.n < |posted| && S.ResultOf(S.OutcomeAt(t, posted, s.n)).id == id)
  }

  /** The block, if there, has the version its setter set. */
  ghost predicate HasVersion(t: S.Table, posted: seq<S.Posted>, b: Blocks, id: Id, s: Setter, start: nat) {
    && SetterOk(t, posted, id, s)
    && (id in b ==> b[id].version == VersionBy(t, posted, s, start))
  }

  lemma {:induction false} RebaseSets(t: S.Table, posted: seq<S.Posted>, b: Blocks, conflicts: seq<(Id, Option<Block>)>,
                                      id: Id, s: Setter, start: nat)
    requires HasVersion(t, posted, b, id, s, start)
    ensures HasVersion(t, posted, C.Rebase(b, conflicts), id, NackSetter(conflicts, id, s), start)
  {
    if conflicts != [] {
      RebaseSets(t, posted, b, conflicts[..|conflicts| - 1], id, s, start);
    }
  }

  /** Local edits, made before any outcome is known, leave the versions of existing blocks alone. */
  lemma EditKeepsVersion(b: Blocks, after: Blocks, e: C.Edit, id: Id)
    requires C.EditStep(b, after, e) && id in after
    ensures if e.EditInsert? && e.id == id then after[id].version == 1 else id in b && after[id].version == b[id].version
  {
  }

  lemma EchoSets(b: Blocks, w: WireOp, id: Id)
    requires id in C.RemoteStep(b, w)
    ensures var v := C.RemoteStep(b, w)[id].version;
            if w.id == id && w.payload.InsertPayload? then v == 1
            else id in b && v == if w.id == id && (w.payload.AttrsPayload? || w.payload.ContentPayload?) then w.version + 1 else b[id].version
  {
  }

  lemma StepSets(t: S.Table, posted: seq<S.Posted>, doc: nat, b: Blocks, ev: Event, id: Id, s: Setter, start: nat)
    requires HasVersion(t, posted, b, id, s, start)
    ensures HasVersion(t, posted, ClientStep(t, posted, doc, b, ev), id, SetterAfter(t, posted, doc, b, ev, id, s), start)
  {
    match ev
    case Echoes(n) =>
      if Known(posted, doc, n) && S.OutcomeAt(t, posted, n).Applied? && id in ClientStep(t, posted, doc, b, ev) {
        EchoSets(b, S.OutcomeAt(t, posted, n).op, id);
      }
    case Acks(n) =>
      if Known(posted, doc, n) {
        AckedSets(b, S.OutcomeAt(t, posted, n));
      }
    case Edits(e, after) =>
      if C.EditStep(b, after, e) && id in after {
        EditKeepsVersion(b, after, e, id);
      }
    case Nacks(conflicts) => RebaseSets(t, posted, b, conflicts, id, s, start);
    case _ =>
  }

  /** What is already posted has the same outcome later on. */
  lemma MorePosted(t: S.Table, posted: seq<S.Posted>, more: seq<S.Posted>, b: Blocks, id: Id, s: Setter, start: nat)
    requires HasVersion(t, posted, b, id, s, start)
    ensures HasVersion(t, posted + more, b, id, s, start)
  {
    if s.ByEcho? || s.ByAck? {
      assert (posted + more)[..s.n] == posted[..s.n] && (posted + more)[s.n] == posted[s.n];
    }
  }

  lemma {:induction false} SetterHasSet(t: S.Table, events: seq<Event>, doc: nat, b: Blocks, id: Id)
    ensures HasVersion(t, PostedIn(events), Client(t, events, doc, b), id, LastSetter(t, events, doc, b, id), if id in b then b[id].version else 0)
  {
    if events != [] {
      var before, ev := events[..|events| - 1], events[|events| - 1];
      var c, s, start := Client(t, before, doc, b), LastSetter(t, before, doc, b, id), if id in b then b[id].version else 0;
      SetterHasSet(t, before, doc, b, id);
      StepSets(t, PostedIn(before), doc, c, ev, id, s, start);
      MorePosted(t, PostedIn(before), if ev.Posts? then [ev.posted] else [], ClientStep(t, PostedIn(before), doc, c, ev), id,
                 SetterAfter(t, PostedIn(before), doc, c, ev, id, s), start);
    }
  }

  /** Over every run, the client's version of a block it has is the one set last. */
  lemma VersionIsLastSet(t: S.Table, events: seq<Event>, doc: nat, b: Blocks, id: Id)
    requires id in Client(t, events, doc, b)
    ensures Client(t, events, doc, b)[id].version == LastSet(t, events, doc, b, id)
  {
    SetterHasSet(t, events, doc, b, id);
  }

  // --------------------------------------------------------------------- the lead

  /** The client's version minus the server's. */
  ghost function Lead(t: S.Table, events: seq<Event>, doc: nat, b: Blocks, id: Id): int
    requires id in Server(t, events) && id in Client(t, events, doc, b)
  {
    Client(t, events, doc, b)[id].version as int - Server(t, events)[id].version
  }

  /** The applied operations from the `n`-th on that raise the version of `id`. */
  ghost function BumpsFrom(t: S.Table, ops: seq<S.Posted>, n: nat, id: Id): nat {
    if |ops| <= n then 0
    else
      var last, before := ops[|ops| - 1], ops[..|ops| - 1];
      BumpsFrom(t, before, n, id) + if Bumps(S.Run(t, before), last.doc, last.op, id) then 1 else 0
  }

  lemma {:induction false} BumpsRaise(t: S.Table, ops: seq<S.Posted>, n: nat, id: Id)
    requires n <= |ops| && LiveThroughout(t, ops, id, n, |ops|)
    ensures id in S.Run(t, ops[..n]) && id in S.Run(t, ops)
    ensures S.Run(t, ops)[id].version == S.Run(t, ops[..n])[id].version + BumpsFrom(t, ops, n, id)
  {
    assert ops[..|ops|] == ops;
    assert id in S.Run(t, ops[..n]) && id in S.Run(t, ops[..|ops|]);
    if n < |ops| {
      var before := ops[..|ops| - 1];
      PrefixLives(t, ops, id, n);
      BumpsRaise(t, before, n, id);
      assert before[..n] == ops[..n];
      StepVersion(S.Run(t, before), ops[|ops| - 1].doc, ops[|ops| - 1].op, id);
    }
  }

  lemma PrefixLives(t: S.Table, ops: seq<S.Posted>, id: Id, n: nat)
    requires n < |ops| && LiveThroughout(t, ops, id, n, |ops|)
    ensures LiveThroughout(t, ops[..|ops| - 1], id, n, |ops| - 1)
  {
    var before := ops[..|ops| - 1];
    forall k: nat | n <= k <= |before|
      ensures id in S.Run(t, before[..k])
    {
      assert before[..k] == ops[..k];
    }
  }

  /** The block's lead by who set its version last, as long as the block lives on the server. */
  ghost function LeadBy(t: S.Table, posted: seq<S.Posted>, n: nat, id: Id, acked: bool): int
    requires n < |posted|
  {
    var o := S.OutcomeAt(t, posted, n);
    if o.Conflict? then -(VersionOf(S.Run(t, posted), id) as int)
    else (if acked || o.op.payload.InsertPayload? then 0 else 1) - BumpsFrom(t, posted, n + 1, id)
  }

  function VersionOf(t: S.Table, id: Id): nat {
    if id in t then t[id].version else 0
  }

  /** The result of an applied operation other than a delete is the version the table has from then on. */
  lemma AppliedVersion(t: S.Table, doc: nat, op: S.Op)
    requires S.Step(t, doc, op).1.Applied? && !op.Delete?
    ensures op.id in S.Step(t, doc, op).0 && S.Step(t, doc, op).1.op.id == op.id
    ensures S.Step(t, doc, op).1.op.version == S.Step(t, doc, op).0[op.id].version
    ensures S.Step(t, doc, op).1.op.payload.InsertPayload? ==> S.Step(t, doc, op).1.op.version == 1
    ensures S.ResultOf(S.Step(t, doc, op).1).newVersion == S.Step(t, doc, op).1.op.version
  {
  }

  /**
   * The lead over every run.  If an echo set the version last, it is 1 for an attrs or
   * content update and 0 for an insert, less one for every operation that raised the
   * server's version since then; if an ack did, 0 less one for each; and minus the
   * server's version if that ack was for a conflict.
   */
  lemma LeadOverRun(t: S.Table, events: seq<Event>, doc: nat, b: Blocks, id: Id, n: nat)
    requires id in Server(t, events) && id in Client(t, events, doc, b)
    requires LastSetter(t, events, doc, b, id) in {ByEcho(n), ByAck(n)}
    requires n < |PostedIn(events)| && !PostedIn(events)[n].op.Delete?
    requires LiveThroughout(t, PostedIn(events), id, n + 1, |PostedIn(events)|)
    ensures Lead(t, events, doc, b, id) == LeadBy(t, PostedIn(events), n, id, LastSetter(t, events, doc, b, id).ByAck?)
  {
    var posted := PostedIn(events);
    SetterHasSet(t, events, doc, b, id);
    if S.OutcomeAt(t, posted, n).Applied? {
      AppliedVersion(S.Run(t, posted[..n]), posted[n].doc, posted[n].op);
      RunNext(t, posted, n);
      BumpsRaise(t, posted, n + 1, id);
    }
  }

  // ------------------------------------------------------------ the next operation

  /** The operations that carry the client's version of the block. */
  predicate ChecksVersion(op: S.Op, b: Blocks) {
    && (op.Delete? || op.Move? || op.UpdateAttrs?)
    && op.id in b && op.expected == Some(b[op.id].version)
  }

  ghost predicate IsStale(o: S.Outcome) {
    o.Conflict? && o.reason == S.StaleVersion
  }

  /**
   * A version-checked operation made after any run, and reaching the server after any
   * further events, is refused as stale exactly if the version set last when it was made
   * is not the server's by then.
   */
  lemma NextIsStaleOverRun(t: S.Table, events: seq<Event>, more: seq<Event>, doc: nat, b: Blocks, op: S.Op)
    requires S.Live(Server(t, events + more), doc, op.id) && ChecksVersion(op, Client(t, events, doc, b))
    ensures IsStale(S.Step(Server(t, events + more), doc, op).1) <==>
              LastSet(t, events, doc, b, op.id) != Server(t, events + more)[op.id].version
  {
    VersionIsLastSet(t, events, doc, b, op.id);
  }

  lemma AckSetsLast(t: S.Table, events: seq<Event>, doc: nat, b: Blocks, id: Id, n: nat)
    requires Known(PostedIn(events), doc, n) && S.ResultOf(S.OutcomeAt(t, PostedIn(events), n)).id == id
    ensures PostedIn(events + [Acks(n)]) == PostedIn(events) && LastSetter(t, events + [Acks(n)], doc, b, id) == ByAck(n)
  {
    assert (events + [Acks(n)])[..|events|] == events;
  }

  /** Once a conflict is acknowledged, the client's next version-checked operation on the block is stale, too. */
  lemma AckedConflictStaysStale(t: S.Table, events: seq<Event>, doc: nat, b: Blocks, n: nat, op: S.Op)
    requires Known(PostedIn(events), doc, n) && S.OutcomeAt(t, PostedIn(events), n).Conflict?
    requires S.ResultOf(S.OutcomeAt(t, PostedIn(events), n)).id == op.id
    requires var now := events + [Acks(n)];
             && S.Live(Server(t, now), doc, op.id) && Server(t, now)[op.id].version > 0
             && ChecksVersion(op, Client(t, now, doc, b))
    ensures IsStale(S.Step(Server(t, events + [Acks(n)]), doc, op).1)
  {
    AckSetsLast(t, events, doc, b, op.id, n);
    assert (events + [Acks(n)]) + [] == events + [Acks(n)];
    NextIsStaleOverRun(t, events + [Acks(n)], [], doc, b, op);
  }

  /** So is one made after the ack of an applied operation that comes after another one has raised the version. */
  lemma LateAckIsBehind(t: S.Table, events: seq<Event>, doc: nat, b: Blocks, n: nat, id: Id)
    requires Known(PostedIn(events), doc, n) && S.OutcomeAt(t, PostedIn(events), n).Applied? && !PostedIn(events)[n].op.Delete?
    requires S.ResultOf(S.OutcomeAt(t, PostedIn(events), n)).id == id
    requires LiveThroughout(t, PostedIn(events), id, n + 1, |PostedIn(events)|)
    requires id in Client(t, events, doc, b) && id in Server(t, events)
    ensures var now := events + [Acks(n)];
            && id in Client(t, now, doc, b) && id in Server(t, now)
            && Lead(t, now, doc, b, id) == -(BumpsFrom(t, PostedIn(events), n + 1, id) as int)
  {
    var now := events + [Acks(n)];
    AckSetsLast(t, events, doc, b, id, n);
    assert now[..|events|] == events;
    AckedSets(Client(t, events, doc, b), S.OutcomeAt(t, PostedIn(events), n));
    LeadOverRun(t, now, doc, b, id, n);
  }

  // ------------------------------------------------------------------- following

  /** What the event brings of the stream. */
  ghost function Arriving(t: S.Table, posted: seq<S.Posted>, doc: nat, ev: Event): seq<WireOp> {
    if ev.Echoes? && Known(posted, doc, ev.n) && S.OutcomeAt(t, posted, ev.n).Applied?
    then [S.OutcomeAt(t, posted, ev.n).op] else []
  }

  /** The streamed operations that have reached the client, in the order of their arrival. */
  ghost function Arrived(t: S.Table, events: seq<Event>, doc: nat): seq<WireOp> {
    if events == [] then []
    else
      var before := events[..|events| - 1];
      Arrived(t, before, doc) + Arriving(t, PostedIn(before), doc, events[|events| - 1])
  }

  /** The user edits nothing and no nack comes. */
  predicate OnlyListens(events: seq<Event>) {
    forall i :: 0 <= i < |events| ==> events[i].Posts? || events[i].Echoes? || events[i].Acks?
  }

  lemma AckKeepsView(b: Blocks, o: S.Outcome)
    ensures ClientView(Acked(b, o)) == ClientView(b)
  {
    AckedSets(b, o);
  }

  /** What a streamed operation makes of the view depends on the view only. */
  lemma SameViewSameStep(b: Blocks, c: Blocks, w: WireOp)
    requires ClientView(b) == ClientView(c)
    ensures ClientView(C.RemoteStep(b, w)) == ClientView(C.RemoteStep(c, w))
  {
    if w.payload.DeletePayload? {
      SameViewSameDelete(b, c, w.id);
    } else {
      ClientViewed(b, w);
      ClientViewed(c, w);
    }
  }

  lemma SameViewSameDelete(b: Blocks, c: Blocks, id: Id)
    requires ClientView(b) == ClientView(c)
    ensures ClientView(C.WithoutBlock(b, id, None)) == ClientView(C.WithoutBlock(c, id, None))
  {
    assert forall x :: x in b <==> x in ClientView(b);
    assert forall x :: x in c <==> x in ClientView(c);
    assert forall x :: x in b ==> ClientView(b)[x] == ClientView(c)[x];
  }

  lemma StepShowsArrived(t: S.Table, posted: seq<S.Posted>, doc: nat, b: Blocks, c: Blocks, ws: seq<WireOp>, ev: Event)
    requires ClientView(c) == ClientView(C.ApplyRemote(b, ws)) && (ev.Posts? || ev.Echoes? || ev.Acks?)
    ensures ClientView(ClientStep(t, posted, doc, c, ev)) == ClientView(C.ApplyRemote(b, ws + Arriving(t, posted, doc, ev)))
  {
    var arriving := Arriving(t, posted, doc, ev);
    if arriving == [] {
      assert ws + arriving == ws;
      if ev.Acks? && Known(posted, doc, ev.n) {
        AckKeepsView(c, S.OutcomeAt(t, posted, ev.n));
      }
    } else {
      assert (ws + arriving)[..|ws|] == ws;
      SameViewSameStep(c, C.ApplyRemote(b, ws), arriving[0]);
    }
  }

  /** However acks come in between, the client shows the fold of what has arrived. */
  lemma {:induction false} ClientShowsArrived(t: S.Table, events: seq<Event>, doc: nat, b: Blocks)
    requires OnlyListens(events)
    ensures ClientView(Client(t, events, doc, b)) == ClientView(C.ApplyRemote(b, Arrived(t, events, doc)))
  {
    if events != [] {
      var before, ev := events[..|events| - 1], events[|events| - 1];
      ClientShowsArrived(t, before, doc, b);
      StepShowsArrived(t, PostedIn(before), doc, b, Client(t, before, doc, b), Arrived(t, before, doc), ev);
    }
  }

  /** With the echoes in stream order and acks anywhere, the client follows the table of the operations that have arrived. */
  lemma ClientFollows(t: S.Table, events: seq<Event>, doc: nat, b: Blocks, m: nat)
    requires TreeOk(t) && Follows(t, doc, b) && OnlyListens(events) && m <= |PostedIn(events)|
    requires Arrived(t, events, doc) == Stream(t, PostedIn(events)[..m], doc)
    ensures Follows(S.Run(t, PostedIn(events)[..m]), doc, Client(t, events, doc, b))
  {
    ClientShowsArrived(t, events, doc, b);
    ReplicaFollows(t, PostedIn(events)[..m], doc, b);
  }

  /** With echoes in any other order, too, once all have arrived: only the operations on each single block must keep theirs. */
  lemma ClientFollowsReordered(t: S.Table, events: seq<Event>, doc: nat, b: Blocks)
    requires TreeOk(t) && Follows(t, doc, b) && OnlyListens(events)
    requires Reordering.NoneReinserted(t, PostedIn(events), doc)
    requires forall id :: Reordering.OpsOn(Arrived(t, events, doc), id) == Reordering.OpsOn(Stream(t, PostedIn(events), doc), id)
    ensures Follows(Server(t, events), doc, Client(t, events, doc, b))
  {
    ClientShowsArrived(t, events, doc, b);
    Reordering.ReorderedFollows(t, PostedIn(events), doc, b, Arrived(t, events, doc));
  }

  // ------------------------------------------------------------------ a late reply

  /** Two attrs updates of block 1 are posted, both echoes come, and then the ack of the first. */
  function LateReply(p: Attrs, q: Attrs): seq<Event> {
    [Posts(S.Posted(0, S.UpdateAttrs(1, p, None)))] + [Posts(S.Posted(0, S.UpdateAttrs(1, q, None)))]
    + [Echoes(0)] + [Echoes(1)] + [Acks(0)]
  }

  lemma PostsNext(events: seq<Event>, ev: Event)
    ensures PostedIn(events + [ev]) == PostedIn(events) + if ev.Posts? then [ev.posted] else []
  {
    assert (events + [ev])[..|events|] == events;
  }

  lemma LateReplyPosts(p: Attrs, q: Attrs)
    ensures LateReply(p, q)[..4] + [Acks(0)] == LateReply(p, q)
    ensures PostedIn(LateReply(p, q)[..4]) == [S.Posted(0, S.UpdateAttrs(1, p, None)), S.Posted(0, S.UpdateAttrs(1, q, None))]
  {
    var a, b := Posts(S.Posted(0, S.UpdateAttrs(1, p, None))), Posts(S.Posted(0, S.UpdateAttrs(1, q, None)));
    assert [] + [a] == [a];
    PostsNext([], a);
    PostsNext([a], b);
    PostsNext([a] + [b], Echoes(0));
    PostsNext([a] + [b] + [Echoes(0)], Echoes(1));
    assert LateReply(p, q)[..4] == [a] + [b] + [Echoes(0)] + [Echoes(1)];
  }

  lemma {:induction false} StaysThere(t: S.Table, events: seq<Event>, doc: nat, b: Blocks, id: Id)
    requires id in b
    requires forall i :: 0 <= i < |events| ==> events[i].Echoes? || events[i].Acks? || (events[i].Posts? && events[i].posted.op.UpdateAttrs?)
    ensures id in Client(t, events, doc, b)
  {
    if events != [] {
      var before, ev := events[..|events| - 1], events[|events| - 1];
      StaysThere(t, before, doc, b, id);
      if ev.Echoes? && Known(PostedIn(before), doc, ev.n) {
        PostsOnlyAttrs(before);
      } else if ev.Acks? && Known(PostedIn(before), doc, ev.n) {
        AckedSets(Client(t, before, doc, b), S.OutcomeAt(t, PostedIn(before), ev.n));
      }
    }
  }

  lemma {:induction false} PostsOnlyAttrs(events: seq<Event>)
    requires forall i :: 0 <= i < |events| ==> events[i].Posts? ==> events[i].posted.op.UpdateAttrs?
    ensures forall i :: 0 <= i < |PostedIn(events)| ==> PostedIn(events)[i].op.UpdateAttrs?
  {
    if events != [] {
      PostsOnlyAttrs(events[..|events| - 1]);
    }
  }

  /** Afterwards the client is one behind, although no operation is under way. */
  lemma LateReplyIsBehind(p: Attrs, q: Attrs, typ: string, content: Content, position: Rank)
    ensures var t: S.Table := map[1 := S.Row(0, None, position, 0, typ, content, 1)];
            var b: Blocks := map[1 := Block(None, position, 0, typ, content, 1)];
            && 1 in Client(t, LateReply(p, q), 0, b) && 1 in Server(t, LateReply(p, q))
            && Lead(t, LateReply(p, q), 0, b, 1) == -1
  {
    var t: S.Table := map[1 := S.Row(0, None, position, 0, typ, content, 1)];
    var b: Blocks := map[1 := Block(None, position, 0, typ, content, 1)];
    var events := LateReply(p, q)[..4];
    LateReplyPosts(p, q);
    var posted := PostedIn(events);
    assert posted[..0] == [] && S.Run(t, posted[..0]) == t;
    RunNext(t, posted, 0);
    RunNext(t, posted, 1);
    assert posted[..2] == posted;
    assert posted[..1][..1] == posted[..1];
    assert BumpsFrom(t, posted[..1], 1, 1) == 0;
    assert BumpsFrom(t, posted, 1, 1) == 1;
    StaysThere(t, events, 0, b, 1);
    LateAckIsBehind(t, events, 0, b, 0, 1);
  }
}
