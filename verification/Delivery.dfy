/**
 * Delivery of one document's stream to sockets on several WebSocket instances.
 *
 * A step is one thing Redis or an instance does without being interleaved: executing a
 * command, answering XINFO or XRANGE, appending an entry, the local broadcast, the
 * publish, or handing one bus message to an instance (apps/ws/src/server.ts,
 * handlers/crdt.ts, bus.ts, room.ts, replay.ts).
 */
module Delivery {
  import opened Wrappers
  import opened Streams
  import opened Replay
  import opened Rooms
  import Handlers

  type Inst = nat
  type Sock = nat

  /** Who appended an entry: a socket's crdt handler on an instance, or the api server. */
  datatype Source = FromSocket(sock: Sock, inst: Inst) | FromApi

  datatype Item = Item(entry: Entry, source: Source)

  /** How far the connection handler got; `ahead` counts commands up to and including the socket's SUBSCRIBE, which may fail. */
  datatype Phase = Joining(ahead: nat) | Failed | Joined | Checked | Ranged | Ready

  /** The moment XRANGE ran: what was trimmed, what was appended, and whether the subscription was settled. */
  datatype Range = Range(kept: nat, seen: nat, settled: bool)

  /**
   * A connection; `live` and `replayed` list the log indices sent by broadcast and by
   * replay, and `early` counts the live ones that were sent before the replay.
   */
  datatype Conn = Conn(inst: Inst, cursor: Option<StreamId>, phase: Phase, open: bool, first: bool,
                       range: Option<Range>, live: seq<nat>, replayed: set<nat>, early: nat)

  /** `toBroadcast` and `toPublish` are the appended entries whose handler has yet to do so. */
  datatype Net = Net(doc: nat, parses: string -> bool, log: seq<Item>, trimmed: nat,
                     insts: map<Inst, Registry<Sock>>, inbox: map<Inst, seq<nat>>, conns: map<Sock, Conn>,
                     toBroadcast: set<nat>, toPublish: set<nat>)

  datatype Action =
    | Connect(s: Sock, inst: Inst, cursor: Option<StreamId>)
    | ExecuteCommand(inst: Inst)
    | FailCommand(inst: Inst)
    | CheckTrim(s: Sock)
    | FailTrimCheck(s: Sock)
    | ReadRange(s: Sock)
    | FailRange(s: Sock)
    | SendReplay(s: Sock)
    | SkipReplay(s: Sock)
    | AppendDelta(s: Sock, entry: Entry)
    | AppendOps(entry: Entry)
    | Broadcast(n: nat)
    | Publish(n: nat)
    | HandBusMessage(inst: Inst)
    | Trim(upTo: nat)
    | Close(s: Sock)
    | Drop(s: Sock)
    | OtherRoom(inst: Inst, event: RoomEvent<Sock>)

  // -------------------------------------------------------------------- steps

  function Entries(log: seq<Item>): seq<Entry> {
    seq(|log|, i requires 0 <= i < |log| => log[i].entry)
  }

  function RoomOf(st: Net, j: Inst): set<Sock>
    requires j in st.insts
  {
    Members(st.insts[j], st.doc)
  }

  /** Entry `n` yields a frame and lies above the cursor `c`. */
  predicate Wanted(st: Net, n: nat, c: StreamId)
    requires n < |st.log|
  {
    Streams.Precedes(c, st.log[n].entry.id) && FrameOf(st.log[n].entry, st.parses).Some?
  }

  /** Every open member but the excepted one is sent entry `n`. */
  function SentTo(conns: map<Sock, Conn>, room: set<Sock>, n: nat, except: Option<Sock>): map<Sock, Conn> {
    map x | x in conns ::
      if x in room && conns[x].open && except != Some(x) then conns[x].(live := conns[x].live + [n]) else conns[x]
  }

  predicate FreshId(log: seq<Item>, e: Entry) {
    forall i :: 0 <= i < |log| ==> Streams.Precedes(log[i].entry.id, e.id)
  }

  predicate At(st: Net, s: Sock, phase: Phase) {
    s in st.conns && st.conns[s].open && st.conns[s].phase == phase
  }

  predicate Enabled(st: Net, a: Action) {
    match a
    case Connect(s, j, _) => s !in st.conns && j in st.insts
    case ExecuteCommand(j) => j in st.insts && st.insts[j].queue != []
    case FailCommand(j) => j in st.insts && st.insts[j].queue != []
    case CheckTrim(s) => At(st, s, Joined) && st.conns[s].cursor.Some?
    case FailTrimCheck(s) => At(st, s, Joined) && st.conns[s].cursor.Some?
    case ReadRange(s) => At(st, s, Checked)
    case FailRange(s) => At(st, s, Checked)
    case SendReplay(s) => At(st, s, Ranged)
    case SkipReplay(s) => At(st, s, Joined) && st.conns[s].cursor.None?
    case AppendDelta(s, e) => s in st.conns && st.conns[s].phase.Ready? && FreshId(st.log, e)
    case AppendOps(e) => FreshId(st.log, e)
    case Broadcast(n) => n in st.toBroadcast
    case Publish(n) => n in st.toPublish
    case HandBusMessage(j) => j in st.inbox && st.inbox[j] != []
    case Trim(k) => st.trimmed <= k <= |st.log|
    case Close(s) => At(st, s, Ready)
    case Drop(s) => s in st.conns && st.conns[s].open && !st.conns[s].phase.Ready?
    case OtherRoom(j, e) => j in st.insts && !e.Executes? && e.doc != st.doc
  }

  function WithConn(st: Net, s: Sock, c: Conn): Net {
    st.(conns := st.conns[s := c])
  }

  function Subscribed(r: Registry<Sock>, doc: nat): bool {
    doc in r.channels && Unsubscribe(doc) !in r.queue
  }

  /** The phase of a waiting socket after one more command of its instance. */
  function Advance(c: Conn, j: Inst): Conn {
    if c.inst == j && c.phase.Joining? then
      c.(phase := if c.phase.ahead <= 1 then Joined else Joining(c.phase.ahead - 1))
    else c
  }

  /** The socket that waits for the failed SUBSCRIBE is closed, with no close listener attached. */
  function Disappoint(c: Conn, j: Inst): Conn {
    if c.inst == j && c.phase.Joining? then
      if c.phase.ahead <= 1 then c.(phase := Failed, open := false) else c.(phase := Joining(c.phase.ahead - 1))
    else c
  }

  /** These are steps of one connection's handler. */
  predicate OnConn(a: Action) {
    a.CheckTrim? || a.FailTrimCheck? || a.ReadRange? || a.FailRange? || a.SendReplay? || a.SkipReplay? || a.Drop?
  }

  /** Only these change rooms and commands. */
  predicate ForRooms(a: Action) {
    a.Connect? || a.ExecuteCommand? || a.FailCommand? || a.Close? || a.OtherRoom?
  }

  /**
   * A failing XINFO counts as no trim.  A failing XRANGE closes the socket before its
   * close listener is attached, as does a break of the connection until then (`Drop`).
   */
  function Apply(st: Net, a: Action): (st': Net)
    requires Wired(st) && Enabled(st, a)
    ensures st'.doc == st.doc && st'.insts.Keys == st.insts.Keys
    ensures !ForRooms(a) ==> st'.insts == st.insts
  {
    match a
    case Connect(s, j, cursor) =>
      var first := RoomOf(st, j) == {};
      var r := JoinStep(st.insts[j], st.doc, s);
      var phase := if first then Joining(|r.queue|) else Joined;
      st.(insts := st.insts[j := r], conns := st.conns[s := Conn(j, cursor, phase, true, first, None, [], {}, 0)])
    case ExecuteCommand(j) =>
      st.(insts := st.insts[j := ExecuteStep(st.insts[j])], conns := map x | x in st.conns :: Advance(st.conns[x], j))
    case FailCommand(j) =>
      st.(insts := st.insts[j := FailStep(st.insts[j])], conns := map x | x in st.conns :: Disappoint(st.conns[x], j))
    case CheckTrim(s) =>
      var c := st.conns[s];
      if TrimDetected(FirstRetained(Entries(st.log), st.trimmed), c.cursor.value) then WithConn(st, s, c.(open := false))
      else WithConn(st, s, c.(phase := Checked))
    case FailTrimCheck(s) => WithConn(st, s, st.conns[s].(phase := Checked))
    case FailRange(s) => WithConn(st, s, st.conns[s].(open := false))
    case ReadRange(s) =>
      var c := st.conns[s];
      var settled := Subscribed(st.insts[c.inst], st.doc);
      WithConn(st, s, c.(phase := Ranged, range := Some(Range(st.trimmed, |st.log|, settled))))
    case SendReplay(s) =>
      var c := st.conns[s];
      var sent := set n: nat | c.range.value.kept <= n < c.range.value.seen && Wanted(st, n, c.cursor.value);
      WithConn(st, s, c.(phase := Ready, replayed := sent, early := |c.live|))
    case SkipReplay(s) => WithConn(st, s, st.conns[s].(phase := Ready))
    case AppendDelta(s, e) =>
      st.(log := st.log + [Item(e, FromSocket(s, st.conns[s].inst))], toBroadcast := st.toBroadcast + {|st.log|})
    case AppendOps(e) => st.(log := st.log + [Item(e, FromApi)], toPublish := st.toPublish + {|st.log|})
    case Broadcast(n) =>
      var from := st.log[n].source;
      st.(conns := SentTo(st.conns, RoomOf(st, from.inst), n, Some(from.sock)),
          toBroadcast := st.toBroadcast - {n}, toPublish := st.toPublish + {n})
    case Publish(n) =>
      st.(inbox := map j | j in st.inbox ::
            if st.doc in st.insts[j].channels then st.inbox[j] + [n] else st.inbox[j],
          toPublish := st.toPublish - {n})
    case HandBusMessage(j) =>
      var n := st.inbox[j][0];
      assert InboxWired(st, st.inbox[j]);
      var own := st.log[n].source.FromSocket? && st.log[n].source.inst == j;
      st.(conns := if own then st.conns else SentTo(st.conns, RoomOf(st, j), n, None),
          inbox := st.inbox[j := st.inbox[j][1..]])
    case Trim(k) => st.(trimmed := k)
    case Close(s) =>
      var j := st.conns[s].inst;
      st.(insts := st.insts[j := LeaveStep(st.insts[j], st.doc, s)], conns := st.conns[s := st.conns[s].(open := false)])
    case Drop(s) => WithConn(st, s, st.conns[s].(open := false))
    case OtherRoom(j, e) => st.(insts := st.insts[j := EventStep(st.insts[j], e)])
  }

  // --------------------------------------------------------------- invariants

  ghost predicate NoRepeats(l: seq<nat>) {
    forall i, j :: 0 <= i < j < |l| ==> l[i] != l[j]
  }

  predicate QueuesWired(st: Net) {
    && st.insts.Keys == st.inbox.Keys
    && st.trimmed <= |st.log|
    && (forall n :: n in st.toBroadcast ==>
          n < |st.log| && n !in st.toPublish && st.log[n].source.FromSocket? && st.log[n].source.inst in st.insts)
    && (forall n :: n in st.toPublish ==> n < |st.log|)
    && (forall j :: j in st.inbox ==> InboxWired(st, st.inbox[j]))
  }

  /** What is on the bus has been broadcast and published. */
  predicate InboxWired(st: Net, l: seq<nat>) {
    forall i :: 0 <= i < |l| ==> l[i] < |st.log| && l[i] !in st.toBroadcast && l[i] !in st.toPublish
  }

  predicate ConnWired(st: Net, c: Conn) {
    && c.inst in st.insts
    && (c.range.Some? ==> c.range.value.kept <= c.range.value.seen <= |st.log| && c.cursor.Some? && (c.phase.Ranged? || c.phase.Ready?))
    && (c.phase.Ranged? ==> c.range.Some?)
    && (c.phase.Checked? ==> c.cursor.Some?)
  }

  /** The pieces fit: ids are known, entries exist, and each entry awaits at most one thing of its handler. */
  predicate Wired(st: Net) {
    QueuesWired(st) && forall s :: s in st.conns ==> ConnWired(st, st.conns[s])
  }

  /** Rooms hold only connections of their own instance, senders are connections of theirs, and no bus message waits twice. */
  ghost predicate RoomsOk(st: Net)
    requires Wired(st)
  {
    && SendersOk(st) && MembersOk(st)
    && (forall j :: j in st.inbox ==> NoRepeats(st.inbox[j]))
  }

  /** Ids increase, and senders are connections of their instances. */
  ghost predicate SendersOk(st: Net) {
    && LogIncreases(st.log)
    && forall n :: 0 <= n < |st.log| && st.log[n].source.FromSocket? ==> SenderKnown(st, st.log[n].source)
  }

  ghost predicate LogIncreases(log: seq<Item>) {
    forall i, j :: 0 <= i < j < |log| ==> Streams.Precedes(log[i].entry.id, log[j].entry.id)
  }

  ghost predicate MembersOk(st: Net) {
    forall j, x :: j in st.insts && x in RoomOf(st, j) ==> x in st.conns && st.conns[x].inst == j
  }

  /** Connections stay, on their instance. */
  ghost predicate KeepsConns(st: Net, st': Net) {
    forall x :: x in st.conns ==> x in st'.conns && st'.conns[x].inst == st.conns[x].inst
  }

  lemma SendersStay(st: Net, st': Net)
    requires SendersOk(st) && KeepsConns(st, st') && st'.log == st.log
    ensures SendersOk(st')
  {
    forall n | 0 <= n < |st.log| && st.log[n].source.FromSocket?
      ensures SenderKnown(st', st.log[n].source)
    {
      assert SenderKnown(st, st.log[n].source);
    }
  }

  lemma MembersStay(st: Net, st': Net)
    requires MembersOk(st) && KeepsConns(st, st') && st'.doc == st.doc
    requires st'.insts.Keys == st.insts.Keys && forall j :: j in st.insts ==> RoomOf(st', j) <= RoomOf(st, j)
    ensures MembersOk(st')
  {
    forall j, x | j in st'.insts && x in RoomOf(st', j)
      ensures x in st'.conns && st'.conns[x].inst == j
    {
      assert x in RoomOf(st, j);
    }
  }

  lemma RoomsStay(st: Net, st': Net)
    requires Wired(st) && RoomsOk(st) && Wired(st') && KeepsConns(st, st')
    requires st'.log == st.log && st'.insts == st.insts && st'.doc == st.doc
    requires forall j :: j in st'.inbox ==> NoRepeats(st'.inbox[j])
    ensures RoomsOk(st')
  {
    SendersStay(st, st');
    assert forall j :: j in st.insts ==> RoomOf(st', j) == RoomOf(st, j);
    MembersStay(st, st');
  }

  predicate SenderKnown(st: Net, from: Source)
    requires from.FromSocket?
  {
    from.sock in st.conns && st.conns[from.sock].inst == from.inst
  }

  predicate IsFrom(st: Net, n: nat, j: Inst)
    requires n < |st.log|
  {
    st.log[n].source.FromSocket? && st.log[n].source.inst == j
  }

  predicate SentBy(st: Net, n: nat, s: Sock)
    requires n < |st.log|
  {
    st.log[n].source.FromSocket? && st.log[n].source.sock == s
  }

  /** Instance `j` has yet to broadcast entry `n`: in its own handler, or from the bus. */
  predicate Pending(st: Net, n: nat, j: Inst)
    requires n < |st.log|
  {
    if IsFrom(st, n, j) then n in st.toBroadcast
    else n in st.toBroadcast || n in st.toPublish || (j in st.inbox && n in st.inbox[j])
  }

  /** What was sent live was sent once, is no longer pending, and is not the socket's own. */
  ghost predicate LiveOk(st: Net, s: Sock, c: Conn) {
    && NoRepeats(c.live) && c.early <= |c.live|
    && forall n :: n in c.live ==> n < |st.log| && !SentBy(st, n, s) && !Pending(st, n, c.inst)
  }

  ghost predicate InRoom(st: Net, s: Sock, j: Inst)
    requires j in st.insts
  {
    s in RoomOf(st, j)
  }

  /** Membership, the wait for the own SUBSCRIBE, and the subscription that later replays rest on. */
  ghost predicate SubscriptionOk(st: Net, s: Sock, c: Conn)
    requires c.inst in st.insts
  {
    var r := st.insts[c.inst];
    && (InRoom(st, s, c.inst) <==> c.open || !c.phase.Ready?)
    && (c.phase.Joining? ==>
          && c.first && 1 <= c.phase.ahead <= |r.queue| && r.queue[c.phase.ahead - 1] == Subscribe(st.doc)
          && Unsubscribe(st.doc) !in r.queue[c.phase.ahead..] && Subscribe(st.doc) !in r.queue[c.phase.ahead..])
    && (c.phase.Failed? ==> !c.open && Unsubscribe(st.doc) !in r.queue && Subscribe(st.doc) !in r.queue)
    && (c.first && !c.phase.Joining? && !c.phase.Failed? && InRoom(st, s, c.inst) ==> Subscribed(r, st.doc))
    && (c.range.Some? && c.range.value.settled && InRoom(st, s, c.inst) ==> Subscribed(r, st.doc))
    && (c.range.Some? && c.first ==> c.range.value.settled)
  }

  /** Everything appended since XRANGE was sent live or is pending. */
  ghost predicate CaughtUp(st: Net, s: Sock, c: Conn, seen: nat) {
    forall n: nat :: seen <= n < |st.log| && !SentBy(st, n, s) ==> n in c.live || Pending(st, n, c.inst)
  }

  /** Replay covers what was appended before XRANGE, broadcasts cover what came after. */
  ghost predicate CoverageOk(st: Net, s: Sock, c: Conn)
    requires ConnWired(st, c)
  {
    && (c.range.Some? ==>
          && c.range.value.kept <= st.trimmed
          && (c.open && c.range.value.settled ==> CaughtUp(st, s, c, c.range.value.seen)))
    && (c.phase.Ready? && c.cursor.Some? ==> c.range.Some?)
    && (c.phase.Ready? && c.range.Some? ==> ReplayedExactly(st, c))
  }

  ghost predicate ReplayedExactly(st: Net, c: Conn)
    requires ConnWired(st, c) && c.range.Some?
  {
    forall n: nat :: n in c.replayed <==>
      c.range.value.kept <= n < c.range.value.seen && Wanted(st, n, c.cursor.value)
  }

  ghost predicate ConnOk(st: Net, s: Sock, c: Conn) {
    ConnWired(st, c) && LiveOk(st, s, c) && SubscriptionOk(st, s, c) && CoverageOk(st, s, c)
  }

  ghost predicate Inv(st: Net) {
    && Wired(st) && RoomsOk(st)
    && forall s :: s in st.conns ==> ConnOk(st, s, st.conns[s])
  }

  // ---------------------------------------------- steps of a single connection

  /** Nothing but the connections changes. */
  ghost predicate SameSurroundings(st: Net, st': Net) {
    st' == st.(conns := st'.conns)
  }

  lemma SurroundingsDecide(st: Net, st': Net, s: Sock, c: Conn)
    requires SameSurroundings(st, st') && ConnOk(st, s, c)
    ensures ConnOk(st', s, c)
  {
  }

  lemma OneConnStep(st: Net, s: Sock, c: Conn)
    requires Inv(st) && s in st.conns && c.inst == st.conns[s].inst && ConnOk(st, s, c)
    ensures Inv(WithConn(st, s, c))
  {
    var st' := WithConn(st, s, c);
    forall x | x in st'.conns
      ensures ConnOk(st', x, st'.conns[x])
    {
      SurroundingsDecide(st, st', x, st'.conns[x]);
    }
  }

  lemma CheckTrimStep(st: Net, s: Sock)
    requires Inv(st) && Enabled(st, CheckTrim(s))
    ensures Inv(Apply(st, CheckTrim(s)))
  {
    assert ConnOk(st, s, st.conns[s]);
    OneConnStep(st, s, Apply(st, CheckTrim(s)).conns[s]);
  }

  lemma ReadRangeStep(st: Net, s: Sock)
    requires Inv(st) && Enabled(st, ReadRange(s))
    ensures Inv(Apply(st, ReadRange(s)))
  {
    assert ConnOk(st, s, st.conns[s]);
    OneConnStep(st, s, Apply(st, ReadRange(s)).conns[s]);
  }

  lemma SendReplayStep(st: Net, s: Sock)
    requires Inv(st) && Enabled(st, SendReplay(s))
    ensures Inv(Apply(st, SendReplay(s)))
  {
    assert ConnOk(st, s, st.conns[s]);
    OneConnStep(st, s, Apply(st, SendReplay(s)).conns[s]);
  }

  lemma SkipReplayStep(st: Net, s: Sock)
    requires Inv(st) && Enabled(st, SkipReplay(s))
    ensures Inv(Apply(st, SkipReplay(s)))
  {
    assert ConnOk(st, s, st.conns[s]);
    OneConnStep(st, s, Apply(st, SkipReplay(s)).conns[s]);
  }

  lemma DropStep(st: Net, s: Sock)
    requires Inv(st) && Enabled(st, Drop(s))
    ensures Inv(Apply(st, Drop(s)))
  {
    assert ConnOk(st, s, st.conns[s]);
    OneConnStep(st, s, Apply(st, Drop(s)).conns[s]);
  }

  lemma FailTrimCheckStep(st: Net, s: Sock)
    requires Inv(st) && Enabled(st, FailTrimCheck(s))
    ensures Inv(Apply(st, FailTrimCheck(s)))
  {
    assert ConnOk(st, s, st.conns[s]);
    OneConnStep(st, s, Apply(st, FailTrimCheck(s)).conns[s]);
  }

  lemma FailRangeStep(st: Net, s: Sock)
    requires Inv(st) && Enabled(st, FailRange(s))
    ensures Inv(Apply(st, FailRange(s)))
  {
    assert ConnOk(st, s, st.conns[s]);
    OneConnStep(st, s, Apply(st, FailRange(s)).conns[s]);
  }

  lemma TrimStep(st: Net, k: nat)
    requires Inv(st) && Enabled(st, Trim(k))
    ensures Inv(Apply(st, Trim(k)))
  {
    var st' := Apply(st, Trim(k));
    forall x | x in st'.conns
      ensures ConnOk(st', x, st'.conns[x])
    {
      assert ConnOk(st, x, st.conns[x]);
    }
  }

  // -------------------------------------------------- steps of an instance's rooms

  /** Only the rooms and commands of instance `j` change. */
  ghost predicate SameButRooms(st: Net, st': Net, j: Inst) {
    && j in st.insts && j in st'.insts
    && st' == st.(insts := st.insts[j := st'.insts[j]], conns := st'.conns)
  }

  /** Apart from rooms and commands a connection sees no change; `c'` may have advanced while joining. */
  lemma RoomChangeKeepsConn(st: Net, st': Net, j: Inst, s: Sock, c: Conn, c': Conn)
    requires SameButRooms(st, st', j) && ConnOk(st, s, c)
    requires c' == c || (c.phase.Joining? && (c'.phase.Joining? || c'.phase.Joined?) && c' == c.(phase := c'.phase))
             || (c.phase.Joining? && c' == c.(phase := Failed, open := false)) || c' == c.(open := false)
    requires if c.inst == j then SubscriptionOk(st', s, c') else SubscriptionOk(st, s, c')
    ensures ConnOk(st', s, c')
  {
  }

  lemma ConnectedIsOk(st: Net, s: Sock, j: Inst, cursor: Option<StreamId>)
    requires Inv(st) && Enabled(st, Connect(s, j, cursor))
    ensures var st' := Apply(st, Connect(s, j, cursor)); ConnOk(st', s, st'.conns[s]) && RoomOf(st', j) == RoomOf(st, j) + {s}
  {
  }

  lemma ConnectKeepsQueues(st: Net, s: Sock, j: Inst, cursor: Option<StreamId>)
    requires Wired(st) && RoomsOk(st) && Enabled(st, Connect(s, j, cursor))
    ensures var st' := Apply(st, Connect(s, j, cursor)); Wired(st') && RoomsOk(st')
  {
    var st' := Apply(st, Connect(s, j, cursor));
    JoinKeeps(st, st', s, j);
  }

  lemma JoinWired(st: Net, st': Net, s: Sock, j: Inst)
    requires Wired(st) && s !in st.conns && j in st.insts
    requires s in st'.conns && st'.conns == st.conns[s := st'.conns[s]] && st'.conns[s].inst == j && ConnWired(st, st'.conns[s])
    requires st' == st.(insts := st'.insts, conns := st'.conns) && st'.insts.Keys == st.insts.Keys
    ensures Wired(st')
  {
    forall x | x in st'.conns
      ensures ConnWired(st', st'.conns[x])
    {
      assert x != s ==> ConnWired(st, st.conns[x]);
    }
    forall i | i in st'.inbox
      ensures InboxWired(st', st'.inbox[i])
    {
      assert InboxWired(st, st.inbox[i]);
    }
  }

  lemma JoinKeeps(st: Net, st': Net, s: Sock, j: Inst)
    requires Wired(st) && RoomsOk(st) && s !in st.conns && j in st.insts
    requires s in st'.conns && st'.conns == st.conns[s := st'.conns[s]] && st'.conns[s].inst == j && ConnWired(st, st'.conns[s])
    requires st' == st.(insts := st.insts[j := JoinStep(st.insts[j], st.doc, s)], conns := st'.conns)
    ensures Wired(st') && RoomsOk(st')
  {
    JoinWired(st, st', s, j);
    SendersStay(st, st');
    forall i, x | i in st'.insts && x in RoomOf(st', i)
      ensures x in st'.conns && st'.conns[x].inst == i
    {
      assert (i == j && x == s) || x in RoomOf(st, i);
    }
  }

  lemma ConnectStep(st: Net, s: Sock, j: Inst, cursor: Option<StreamId>)
    requires Inv(st) && Enabled(st, Connect(s, j, cursor))
    ensures Inv(Apply(st, Connect(s, j, cursor)))
  {
    var st' := Apply(st, Connect(s, j, cursor));
    ConnectKeepsQueues(st, s, j, cursor);
    ConnectedIsOk(st, s, j, cursor);
    forall x | x in st'.conns
      ensures ConnOk(st', x, st'.conns[x])
    {
      if x != s {
        assert ConnOk(st, x, st.conns[x]);
        RoomChangeKeepsConn(st, st', j, x, st.conns[x], st.conns[x]);
      }
    }
  }

  /** Another member's leaving takes neither membership nor subscription from a socket. */
  lemma LeaveKeepsOthers(st: Net, st': Net, j: Inst, left: Sock, s: Sock, c: Conn)
    requires SameButRooms(st, st', j) && st'.insts[j] == LeaveStep(st.insts[j], st.doc, left)
    requires c.inst == j && s != left && SubscriptionOk(st, s, c)
    ensures SubscriptionOk(st', s, c)
  {
    assert RoomOf(st', j) == RoomOf(st, j) - {left};
    if InRoom(st, s, j) {
      assert s in st.insts[j].rooms[st.doc] - {left};
      assert st'.insts[j].queue == st.insts[j].queue;
    }
  }

  lemma CloseStep(st: Net, s: Sock)
    requires Inv(st) && Enabled(st, Close(s))
    ensures Inv(Apply(st, Close(s)))
  {
    var st' := Apply(st, Close(s));
    var j := st.conns[s].inst;
    assert RoomOf(st', j) == RoomOf(st, j) - {s};
    forall x | x in st'.conns
      ensures ConnOk(st', x, st'.conns[x])
    {
      var c := st.conns[x];
      assert ConnOk(st, x, c);
      if x != s && c.inst == j {
        LeaveKeepsOthers(st, st', j, s, x, c);
      }
      RoomChangeKeepsConn(st, st', j, x, c, st'.conns[x]);
    }
    RoomsWired(st, st', j);
    RoomsShrink(st, st', j);
  }

  lemma RoomsWired(st: Net, st': Net, j: Inst)
    requires Wired(st) && SameButRooms(st, st', j) && forall x :: x in st'.conns ==> ConnWired(st', st'.conns[x])
    ensures Wired(st')
  {
    forall i | i in st'.inbox
      ensures InboxWired(st', st'.inbox[i])
    {
      assert InboxWired(st, st.inbox[i]);
    }
  }

  lemma RoomsShrink(st: Net, st': Net, j: Inst)
    requires Wired(st) && RoomsOk(st) && SameButRooms(st, st', j) && Wired(st')
    requires RoomOf(st', j) <= RoomOf(st, j)
    requires st'.conns.Keys == st.conns.Keys && forall x :: x in st.conns ==> st'.conns[x].inst == st.conns[x].inst
    ensures RoomsOk(st')
  {
    SendersStay(st, st');
    assert forall i :: i in st.insts ==> RoomOf(st', i) <= RoomOf(st, i);
    MembersStay(st, st');
  }

  /** Commands for other documents change nothing about this one's. */
  lemma OtherRoomKeepsSubscription(st: Net, st': Net, j: Inst, e: RoomEvent<Sock>, s: Sock, c: Conn)
    requires SameButRooms(st, st', j) && st'.insts[j] == EventStep(st.insts[j], e) && !e.Executes? && e.doc != st.doc
    requires c.inst == j && SubscriptionOk(st, s, c)
    ensures SubscriptionOk(st', s, c)
  {
    assert RoomOf(st', j) == RoomOf(st, j);
    var q, q' := st.insts[j].queue, st'.insts[j].queue;
    assert q <= q' && forall i :: |q| <= i < |q'| ==> q'[i].doc != st.doc;
    if c.phase.Joining? {
      assert q'[c.phase.ahead..] == q[c.phase.ahead..] + q'[|q|..];
    }
  }

  lemma OtherRoomStep(st: Net, j: Inst, e: RoomEvent<Sock>)
    requires Inv(st) && Enabled(st, OtherRoom(j, e))
    ensures Inv(Apply(st, OtherRoom(j, e)))
  {
    var st' := Apply(st, OtherRoom(j, e));
    assert RoomOf(st', j) == RoomOf(st, j);
    forall x | x in st'.conns
      ensures ConnOk(st', x, st'.conns[x])
    {
      assert ConnOk(st, x, st.conns[x]);
      if st.conns[x].inst == j {
        OtherRoomKeepsSubscription(st, st', j, e, x, st.conns[x]);
      }
      RoomChangeKeepsConn(st, st', j, x, st.conns[x], st.conns[x]);
    }
    RoomsWired(st, st', j);
    RoomsShrink(st, st', j);
  }

  /** An executed command is the one a waiting socket waits for, or moves its SUBSCRIBE one place forward. */
  lemma ExecuteKeepsSubscription(st: Net, st': Net, j: Inst, s: Sock, c: Conn)
    requires SameButRooms(st, st', j) && st.insts[j].queue != [] && st'.insts[j] == ExecuteStep(st.insts[j])
    requires c.inst == j && SubscriptionOk(st, s, c) && (c.phase.Joining? ==> c.range.None?)
    ensures SubscriptionOk(st', s, Advance(c, j))
  {
    assert RoomOf(st', j) == RoomOf(st, j);
    var q, q' := st.insts[j].queue, st'.insts[j].queue;
    assert forall cmd :: cmd in q' ==> cmd in q;
    if c.phase.Joining? {
      assert q[c.phase.ahead..] == q'[c.phase.ahead - 1..];
      if c.phase.ahead > 1 {
        assert q'[c.phase.ahead - 2] == Subscribe(st.doc);
      }
    }
  }

  lemma ExecuteCommandStep(st: Net, j: Inst)
    requires Inv(st) && Enabled(st, ExecuteCommand(j))
    ensures Inv(Apply(st, ExecuteCommand(j)))
  {
    var st' := Apply(st, ExecuteCommand(j));
    assert RoomOf(st', j) == RoomOf(st, j);
    forall x | x in st'.conns
      ensures ConnOk(st', x, st'.conns[x])
    {
      var c := st.conns[x];
      assert ConnOk(st, x, c);
      if c.inst == j {
        ExecuteKeepsSubscription(st, st', j, x, c);
      }
      RoomChangeKeepsConn(st, st', j, x, c, Advance(c, j));
    }
    RoomsWired(st, st', j);
    RoomsShrink(st, st', j);
  }

  /** A failed command ends the wait of the socket it was for; the others go on. */
  lemma FailKeepsSubscription(st: Net, st': Net, j: Inst, s: Sock, c: Conn)
    requires SameButRooms(st, st', j) && st.insts[j].queue != [] && st'.insts[j] == FailStep(st.insts[j])
    requires c.inst == j && SubscriptionOk(st, s, c) && (c.phase.Joining? ==> c.range.None?)
    ensures SubscriptionOk(st', s, Disappoint(c, j))
  {
    assert RoomOf(st', j) == RoomOf(st, j);
    var q, q' := st.insts[j].queue, st'.insts[j].queue;
    assert forall cmd :: cmd in q' ==> cmd in q;
    if c.phase.Joining? {
      assert q[c.phase.ahead..] == q'[c.phase.ahead - 1..];
      if c.phase.ahead > 1 {
        assert q'[c.phase.ahead - 2] == Subscribe(st.doc);
      }
    }
  }

  lemma FailCommandStep(st: Net, j: Inst)
    requires Inv(st) && Enabled(st, FailCommand(j))
    ensures Inv(Apply(st, FailCommand(j)))
  {
    var st' := Apply(st, FailCommand(j));
    assert RoomOf(st', j) == RoomOf(st, j);
    forall x | x in st'.conns
      ensures ConnOk(st', x, st'.conns[x])
    {
      var c := st.conns[x];
      assert ConnOk(st, x, c);
      if c.inst == j {
        FailKeepsSubscription(st, st', j, x, c);
      }
      RoomChangeKeepsConn(st, st', j, x, c, Disappoint(c, j));
    }
    RoomsWired(st, st', j);
    RoomsShrink(st, st', j);
  }

  // ------------------------------------------------------- steps of the stream

  /** One entry was appended and awaits the first thing its handler does with it. */
  ghost predicate Appended(st: Net, st': Net) {
    && |st'.log| == |st.log| + 1 && st'.log[..|st.log|] == st.log && FreshId(st.log, st'.log[|st.log|].entry)
    && st' == st.(log := st'.log, toBroadcast := st'.toBroadcast, toPublish := st'.toPublish)
    && var item := st'.log[|st.log|];
       if item.source.FromSocket?
       then
         && item.source.inst in st.insts && SenderKnown(st, item.source)
         && st'.toBroadcast == st.toBroadcast + {|st.log|} && st'.toPublish == st.toPublish
       else st'.toBroadcast == st.toBroadcast && st'.toPublish == st.toPublish + {|st.log|}
  }

  lemma AppendKeepsConn(st: Net, st': Net, s: Sock, c: Conn)
    requires QueuesWired(st) && ConnOk(st, s, c) && Appended(st, st')
    ensures ConnOk(st', s, c)
  {
    assert forall n :: 0 <= n < |st.log| ==> st'.log[n] == st'.log[..|st.log|][n];
    assert forall n: nat :: n < |st.log| ==> Pending(st', n, c.inst) == Pending(st, n, c.inst) && SentBy(st', n, s) == SentBy(st, n, s);
    assert Pending(st', |st.log|, c.inst);
  }

  lemma AppendDeltaStep(st: Net, s: Sock, e: Entry)
    requires Inv(st) && Enabled(st, AppendDelta(s, e))
    ensures Inv(Apply(st, AppendDelta(s, e)))
  {
    var st' := Apply(st, AppendDelta(s, e));
    assert ConnOk(st, s, st.conns[s]);
    forall x | x in st'.conns
      ensures ConnOk(st', x, st'.conns[x])
    {
      assert ConnOk(st, x, st.conns[x]);
      AppendKeepsConn(st, st', x, st.conns[x]);
    }
    AppendKeepsQueues(st, st');
  }

  lemma AppendOpsStep(st: Net, e: Entry)
    requires Inv(st) && Enabled(st, AppendOps(e))
    ensures Inv(Apply(st, AppendOps(e)))
  {
    var st' := Apply(st, AppendOps(e));
    forall x | x in st'.conns
      ensures ConnOk(st', x, st'.conns[x])
    {
      assert ConnOk(st, x, st.conns[x]);
      AppendKeepsConn(st, st', x, st.conns[x]);
    }
    AppendKeepsQueues(st, st');
  }

  lemma AppendKeepsQueues(st: Net, st': Net)
    requires Wired(st) && RoomsOk(st) && Appended(st, st')
    requires forall s :: s in st'.conns ==> ConnWired(st', st'.conns[s])
    ensures Wired(st') && RoomsOk(st')
  {
    assert forall n :: 0 <= n < |st.log| ==> st'.log[n] == st'.log[..|st.log|][n];
    forall j | j in st'.inbox
      ensures InboxWired(st', st'.inbox[j])
    {
      assert InboxWired(st, st.inbox[j]);
    }
    forall n | 0 <= n < |st'.log| && st'.log[n].source.FromSocket?
      ensures SenderKnown(st', st'.log[n].source)
    {
      if n < |st.log| {
        assert SenderKnown(st, st.log[n].source);
      }
    }
    assert forall i :: i in st'.insts ==> RoomOf(st', i) == RoomOf(st, i);
  }

  lemma AppendsNew(l: seq<nat>, n: nat)
    requires NoRepeats(l) && n !in l
    ensures NoRepeats(l + [n])
  {
  }

  /** The local broadcast reaches the open members of the handler's own instance. */
  lemma BroadcastEndsPending(st: Net, n: nat, j: Inst, m: nat)
    requires Wired(st) && n in st.toBroadcast && m < |st.log|
    ensures Pending(Apply(st, Broadcast(n)), m, j) == (Pending(st, m, j) && !(m == n && IsFrom(st, n, j)))
  {
  }

  /** Who gets the broadcast: the open members of the sender's room except the sender. */
  lemma BroadcastReaches(st: Net, n: nat, s: Sock, c: Conn)
    requires Wired(st) && RoomsOk(st) && n in st.toBroadcast && s in st.conns && c == st.conns[s] && SubscriptionOk(st, s, c)
    ensures Apply(st, Broadcast(n)).conns[s] ==
              if c.open && IsFrom(st, n, c.inst) && !SentBy(st, n, s) then c.(live := c.live + [n]) else c
  {
  }

  lemma BroadcastKeepsConn(st: Net, st': Net, n: nat, s: Sock, c: Conn)
    requires Wired(st) && RoomsOk(st) && n in st.toBroadcast && st' == Apply(st, Broadcast(n))
    requires s in st.conns && c == st.conns[s] && ConnOk(st, s, c)
    ensures ConnOk(st', s, st'.conns[s])
  {
    BroadcastReaches(st, n, s, c);
    forall m: nat | m < |st.log|
      ensures Pending(st', m, c.inst) == (Pending(st, m, c.inst) && !(m == n && IsFrom(st, n, c.inst)))
    {
      BroadcastEndsPending(st, n, c.inst, m);
    }
    DeliveryKeepsConn(st, st', n, s, c, st'.conns[s], IsFrom(st, n, c.inst));
  }

  /** If `due`, entry `n` stops being pending for the connection's instance and is sent to the connection unless it is its own. */
  lemma DeliveryKeepsConn(st: Net, st': Net, n: nat, s: Sock, c: Conn, c': Conn, due: bool)
    requires ConnOk(st, s, c) && n < |st.log| && (due ==> Pending(st, n, c.inst))
    requires st'.log == st.log && st'.insts == st.insts && st'.trimmed == st.trimmed && st'.parses == st.parses && st'.doc == st.doc
    requires c' == if due && c.open && !SentBy(st, n, s) then c.(live := c.live + [n]) else c
    requires forall m: nat :: m < |st.log| ==> Pending(st', m, c.inst) == (Pending(st, m, c.inst) && !(due && m == n))
    ensures ConnOk(st', s, c')
  {
    assert LiveOk(st', s, c') by {
      if c.live != c'.live {
        AppendsNew(c.live, n);
      }
      assert forall m :: m in c'.live ==> m in c.live || m == n;
    }
    assert CoverageOk(st', s, c') by {
      assert forall m :: m in c.live ==> m in c'.live;
    }
  }

  /** Moving an entry from one set of waiting entries to the other keeps the queues wired. */
  lemma MovingKeepsWired(st: Net, st': Net, n: nat)
    requires Wired(st) && n in st.toBroadcast
    requires st' == st.(conns := st'.conns, toBroadcast := st.toBroadcast - {n}, toPublish := st.toPublish + {n})
    requires forall x :: x in st'.conns ==> ConnWired(st', st'.conns[x])
    ensures Wired(st')
  {
    forall j | j in st'.inbox
      ensures InboxWired(st', st'.inbox[j])
    {
      assert InboxWired(st, st.inbox[j]);
    }
  }

  /** Sending to connections and moving an entry on to `toPublish` keeps rooms and queues right. */
  lemma SendingKeepsQueues(st: Net, st': Net, n: nat)
    requires Wired(st) && RoomsOk(st) && n in st.toBroadcast
    requires st' == st.(conns := st'.conns, toBroadcast := st.toBroadcast - {n}, toPublish := st.toPublish + {n})
    requires st'.conns.Keys == st.conns.Keys
    requires forall x :: x in st.conns ==> st'.conns[x] == st.conns[x].(live := st'.conns[x].live)
    ensures Wired(st') && RoomsOk(st')
  {
    forall x | x in st'.conns
      ensures ConnWired(st', st'.conns[x])
    {
      assert ConnWired(st, st.conns[x]);
    }
    MovingKeepsWired(st, st', n);
    RoomsStay(st, st');
  }

  lemma BroadcastKeepsQueues(st: Net, n: nat)
    requires Wired(st) && RoomsOk(st) && n in st.toBroadcast
    ensures var st' := Apply(st, Broadcast(n)); Wired(st') && RoomsOk(st')
  {
    SendingKeepsQueues(st, Apply(st, Broadcast(n)), n);
  }

  lemma BroadcastStep(st: Net, n: nat)
    requires Inv(st) && Enabled(st, Broadcast(n))
    ensures Inv(Apply(st, Broadcast(n)))
  {
    var st' := Apply(st, Broadcast(n));
    BroadcastKeepsQueues(st, n);
    forall x | x in st'.conns
      ensures ConnOk(st', x, st'.conns[x])
    {
      assert ConnOk(st, x, st.conns[x]);
      BroadcastKeepsConn(st, st', n, x, st.conns[x]);
    }
  }

  /** A publish reaches the instances subscribed at that moment. */
  lemma PublishKeepsConn(st: Net, st': Net, n: nat, s: Sock, c: Conn)
    requires Wired(st) && RoomsOk(st) && n in st.toPublish && st' == Apply(st, Publish(n))
    requires ConnOk(st, s, c)
    ensures ConnOk(st', s, c)
  {
    assert forall m: nat :: m < |st.log| && m != n ==> Pending(st', m, c.inst) == Pending(st, m, c.inst);
    if st.doc in st.insts[c.inst].channels {
      assert st'.inbox[c.inst][|st.inbox[c.inst]|] == n;
      assert n in st'.inbox[c.inst];
    }
    assert Pending(st', n, c.inst) ==> Pending(st, n, c.inst);
  }

  lemma PublishStep(st: Net, n: nat)
    requires Inv(st) && Enabled(st, Publish(n))
    ensures Inv(Apply(st, Publish(n)))
  {
    var st' := Apply(st, Publish(n));
    forall x | x in st'.conns
      ensures ConnOk(st', x, st'.conns[x])
    {
      assert ConnOk(st, x, st.conns[x]);
      PublishKeepsConn(st, st', n, x, st.conns[x]);
    }
    forall j | j in st'.inbox
      ensures InboxWired(st', st'.inbox[j]) && NoRepeats(st'.inbox[j])
    {
      assert InboxWired(st, st.inbox[j]);
      AppendsNew(st.inbox[j], n);
    }
    RoomsStay(st, st');
  }

  /** Taking the first bus message changes what is pending for this one instance and entry only. */
  lemma HandedIsNoLongerPending(st: Net, st': Net, j: Inst, i: Inst, m: nat)
    requires Wired(st) && RoomsOk(st) && j in st.inbox && st.inbox[j] != [] && m < |st.log|
    requires st' == st.(inbox := st.inbox[j := st.inbox[j][1..]], conns := st'.conns)
    ensures Pending(st', m, i) <==> Pending(st, m, i) && !(i == j && m == st.inbox[j][0])
  {
    var l := st.inbox[j];
    assert InboxWired(st, l) && NoRepeats(l);
    assert l == [l[0]] + l[1..] && l[0] !in l[1..];
    if i == j && m == l[0] {
      assert l[0] !in st.toBroadcast && l[0] !in st.toPublish;
    }
  }

  /** A bus message goes to the open members, unless this instance published it. */
  lemma HandReaches(st: Net, j: Inst, s: Sock, c: Conn)
    requires Wired(st) && RoomsOk(st) && j in st.inbox && st.inbox[j] != [] && s in st.conns && c == st.conns[s] && SubscriptionOk(st, s, c)
    ensures st.inbox[j][0] < |st.log|
    ensures var n := st.inbox[j][0];
            && Apply(st, HandBusMessage(j)).conns[s] ==
                 (if c.inst == j && !IsFrom(st, n, j) && c.open && !SentBy(st, n, s) then c.(live := c.live + [n]) else c)
  {
    var n := st.inbox[j][0];
    assert InboxWired(st, st.inbox[j]);
    assert st.log[n].source.FromSocket? ==> SenderKnown(st, st.log[n].source);
  }

  lemma HandKeepsConn(st: Net, st': Net, j: Inst, s: Sock, c: Conn)
    requires Wired(st) && RoomsOk(st) && j in st.inbox && st.inbox[j] != [] && st' == Apply(st, HandBusMessage(j))
    requires s in st.conns && c == st.conns[s] && ConnOk(st, s, c)
    ensures ConnOk(st', s, st'.conns[s])
  {
    var n := st.inbox[j][0];
    HandReaches(st, j, s, c);
    HandedPending(st, st', j, c.inst);
    DeliveryKeepsConn(st, st', n, s, c, st'.conns[s], c.inst == j && !IsFrom(st, n, j));
  }

  lemma HandedPending(st: Net, st': Net, j: Inst, i: Inst)
    requires Wired(st) && RoomsOk(st) && j in st.inbox && st.inbox[j] != []
    requires st' == st.(inbox := st.inbox[j := st.inbox[j][1..]], conns := st'.conns)
    ensures st.inbox[j][0] < |st.log|
    ensures var n := st.inbox[j][0];
            && (i == j && !IsFrom(st, n, j) ==> Pending(st, n, i))
            && (forall m: nat :: m < |st.log| ==> Pending(st', m, i) == (Pending(st, m, i) && !(i == j && !IsFrom(st, n, j) && m == n)))
  {
    var n := st.inbox[j][0];
    assert InboxWired(st, st.inbox[j]);
    assert n in st.inbox[j];
    forall m: nat | m < |st.log|
      ensures Pending(st', m, i) == (Pending(st, m, i) && !(i == j && !IsFrom(st, n, j) && m == n))
    {
      HandedIsNoLongerPending(st, st', j, i, m);
    }
  }

  lemma HandKeepsWired(st: Net, st': Net, j: Inst)
    requires Wired(st) && j in st.inbox && st.inbox[j] != []
    requires st' == st.(inbox := st.inbox[j := st.inbox[j][1..]], conns := st'.conns)
    requires forall x :: x in st'.conns ==> ConnWired(st', st'.conns[x])
    ensures Wired(st')
  {
    forall i | i in st'.inbox
      ensures InboxWired(st', st'.inbox[i])
    {
      assert InboxWired(st, st.inbox[i]);
    }
  }

  lemma RestNoRepeats(l: seq<nat>)
    requires NoRepeats(l) && l != []
    ensures NoRepeats(l[1..])
  {
  }

  lemma HandKeepsQueues(st: Net, st': Net, j: Inst)
    requires Wired(st) && RoomsOk(st) && j in st.inbox && st.inbox[j] != []
    requires st' == st.(inbox := st.inbox[j := st.inbox[j][1..]], conns := st'.conns)
    requires st'.conns.Keys == st.conns.Keys
    requires forall x :: x in st.conns ==> st'.conns[x].inst == st.conns[x].inst && ConnWired(st', st'.conns[x])
    ensures Wired(st') && RoomsOk(st')
  {
    HandKeepsWired(st, st', j);
    RestNoRepeats(st.inbox[j]);
    RoomsStay(st, st');
  }

  lemma HandBusMessageStep(st: Net, j: Inst)
    requires Inv(st) && Enabled(st, HandBusMessage(j))
    ensures Inv(Apply(st, HandBusMessage(j)))
  {
    var st' := Apply(st, HandBusMessage(j));
    forall x | x in st'.conns
      ensures ConnOk(st', x, st'.conns[x])
    {
      assert ConnOk(st, x, st.conns[x]);
      HandKeepsConn(st, st', j, x, st.conns[x]);
    }
    HandKeepsQueues(st, st', j);
  }

  // --------------------------------------------------------------------- runs

  /** Instances without connections, an empty stream and nothing under way. */
  ghost predicate Initial(st: Net) {
    && st.log == [] && st.trimmed == 0 && st.conns == map[] && st.toBroadcast == {} && st.toPublish == {}
    && st.inbox.Keys == st.insts.Keys
    && forall j :: j in st.insts ==> st.insts[j] == Registry(map[], [], {}) && st.inbox[j] == []
  }

  lemma InitialIsOk(st: Net)
    requires Initial(st)
    ensures Inv(st)
  {
  }

  lemma RoomStepKeepsInv(st: Net, a: Action)
    requires Inv(st) && Enabled(st, a) && ForRooms(a)
    ensures Inv(Apply(st, a))
  {
    match a
    case Connect(s, j, cursor) => ConnectStep(st, s, j, cursor);
    case ExecuteCommand(j) => ExecuteCommandStep(st, j);
    case FailCommand(j) => FailCommandStep(st, j);
    case Close(s) => CloseStep(st, s);
    case OtherRoom(j, e) => OtherRoomStep(st, j, e);
  }

  lemma StreamStepKeepsInv(st: Net, a: Action)
    requires Inv(st) && Enabled(st, a)
    requires !ForRooms(a) && !OnConn(a)
    ensures Inv(Apply(st, a))
  {
    match a
    case AppendDelta(s, e) => AppendDeltaStep(st, s, e);
    case AppendOps(e) => AppendOpsStep(st, e);
    case Broadcast(n) => BroadcastStep(st, n);
    case Publish(n) => PublishStep(st, n);
    case HandBusMessage(j) => HandBusMessageStep(st, j);
    case Trim(k) => TrimStep(st, k);
  }

  lemma ConnStepKeepsInv(st: Net, a: Action)
    requires Inv(st) && Enabled(st, a)
    requires OnConn(a)
    ensures Inv(Apply(st, a))
  {
    match a
    case CheckTrim(s) => CheckTrimStep(st, s);
    case FailTrimCheck(s) => FailTrimCheckStep(st, s);
    case ReadRange(s) => ReadRangeStep(st, s);
    case FailRange(s) => FailRangeStep(st, s);
    case SendReplay(s) => SendReplayStep(st, s);
    case SkipReplay(s) => SkipReplayStep(st, s);
    case Drop(s) => DropStep(st, s);
  }

  lemma StepKeepsInv(st: Net, a: Action)
    requires Inv(st) && Enabled(st, a)
    ensures Inv(Apply(st, a))
  {
    if ForRooms(a) {
      RoomStepKeepsInv(st, a);
    } else if OnConn(a) {
      ConnStepKeepsInv(st, a);
    } else {
      StreamStepKeepsInv(st, a);
    }
  }

  /** The actions are enabled one after the other and lead from `st` to `end`. */
  ghost predicate Leads(st: Net, actions: seq<Action>, end: Net)
    decreases |actions|
  {
    if actions == [] then st == end
    else Wired(st) && Enabled(st, actions[0]) && Leads(Apply(st, actions[0]), actions[1..], end)
  }

  lemma {:induction false} LeadsConcat(st: Net, a: seq<Action>, mid: Net, b: seq<Action>, end: Net)
    requires Leads(st, a, mid) && Leads(mid, b, end)
    ensures Leads(st, a + b, end)
    decreases |a|
  {
    if a == [] {
      assert a + b == b;
    } else {
      assert (a + b)[0] == a[0] && (a + b)[1..] == a[1..] + b;
      LeadsConcat(Apply(st, a[0]), a[1..], mid, b, end);
    }
  }

  lemma {:induction false} RunKeepsInv(st: Net, actions: seq<Action>, end: Net)
    requires Inv(st) && Leads(st, actions, end)
    ensures Inv(end)
    decreases |actions|
  {
    if actions != [] {
      StepKeepsInv(st, actions[0]);
      RunKeepsInv(Apply(st, actions[0]), actions[1..], end);
    }
  }

  /** `st` is reached by some interleaving from an initial state. */
  ghost predicate Reached(start: Net, actions: seq<Action>, st: Net) {
    Initial(start) && Leads(start, actions, st)
  }

  lemma ReachedIsOk(start: Net, actions: seq<Action>, st: Net)
    requires Reached(start, actions, st)
    ensures Inv(st)
  {
    InitialIsOk(start);
    RunKeepsInv(start, actions, st);
  }

  /** The connection is open, its handler has finished, and its replay ran under a settled subscription. */
  predicate Replayed(st: Net, s: Sock) {
    && At(st, s, Ready) && st.conns[s].cursor.Some?
    && st.conns[s].range.Some? && st.conns[s].range.value.settled
  }

  /**
   * No missed entry.  In every reached state, an open socket that has been replayed under
   * a settled subscription has been sent, or its instance has yet to broadcast, every
   * frame-yielding entry above its cursor that it did not send itself and that was not
   * trimmed when XRANGE ran; in particular every such entry still retained.
   */
  lemma NoMissedEntry(start: Net, actions: seq<Action>, st: Net, s: Sock, n: nat)
    requires Reached(start, actions, st) && Replayed(st, s)
    requires n < |st.log| && Wanted(st, n, st.conns[s].cursor.value) && !SentBy(st, n, s)
    requires st.conns[s].range.value.kept <= n || st.trimmed <= n
    ensures var c := st.conns[s]; n in c.replayed || n in c.live || Pending(st, n, c.inst)
  {
    ReachedIsOk(start, actions, st);
    assert ConnOk(st, s, st.conns[s]);
  }

  /** Live delivery: at most once, never to the sender, and never of an entry still pending for the instance. */
  lemma LiveAtMostOnce(start: Net, actions: seq<Action>, st: Net, s: Sock, n: nat)
    requires Reached(start, actions, st) && s in st.conns
    ensures var live := st.conns[s].live;
            && multiset(live)[n] <= 1
            && (n in live ==> n < |st.log| && !SentBy(st, n, s) && !Pending(st, n, st.conns[s].inst))
  {
    ReachedIsOk(start, actions, st);
    assert ConnOk(st, s, st.conns[s]);
    NoRepeatsCountsOnce(st.conns[s].live, n);
  }

  lemma {:induction false} NoRepeatsCountsOnce(l: seq<nat>, n: nat)
    requires NoRepeats(l)
    ensures multiset(l)[n] <= 1
  {
    if l != [] {
      NoRepeatsCountsOnce(l[1..], n);
      assert l == [l[0]] + l[1..];
      assert l[0] !in l[1..];
      assert n in l[1..] <==> multiset(l[1..])[n] > 0;
    }
  }

  /** The socket whose join issued the SUBSCRIBE waits for it, and so is always replayed under a settled subscription. */
  lemma FirstJoinerIsSettled(start: Net, actions: seq<Action>, st: Net, s: Sock)
    requires Reached(start, actions, st) && s in st.conns
    requires st.conns[s].first && st.conns[s].range.Some?
    ensures st.conns[s].range.value.settled
  {
    ReachedIsOk(start, actions, st);
    assert ConnOk(st, s, st.conns[s]);
  }

  lemma EntriesSlice(log: seq<Item>, lo: nat, hi: nat)
    requires lo <= hi <= |log|
    ensures forall e :: e in Entries(log)[lo..hi] <==> exists n: nat :: lo <= n < hi && log[n].entry == e
  {
    var es := Entries(log)[lo..hi];
    forall e | exists n: nat :: lo <= n < hi && log[n].entry == e
      ensures e in es
    {
      var n: nat :| lo <= n < hi && log[n].entry == e;
      assert es[n - lo] == e;
    }
    forall e | e in es
      ensures exists n: nat :: lo <= n < hi && log[n].entry == e
    {
      var i :| 0 <= i < |es| && es[i] == e;
      assert log[lo + i].entry == e;
    }
  }

  /** The indices marked as replayed stand for exactly the frames that runReplay sends for the retained part of the log. */
  lemma ReplayedFrames(st: Net, c: Conn, f: Frame)
    requires ConnWired(st, c) && c.range.Some? && ReplayedExactly(st, c)
    ensures var retained := Entries(st.log)[c.range.value.kept..c.range.value.seen];
            (exists n :: n in c.replayed && n < |st.log| && FrameOf(st.log[n].entry, st.parses) == Some(f)) <==>
              f in FramesOf(Above(retained, c.cursor.value), st.parses)
  {
    var lo, hi, since := c.range.value.kept, c.range.value.seen, c.cursor.value;
    var retained := Entries(st.log)[lo..hi];
    var above := Above(retained, since);
    FramesAreYielded(above, st.parses, f);
    EntriesSlice(st.log, lo, hi);
    if e :| e in above && FrameOf(e, st.parses) == Some(f) {
      AboveMembers(retained, since, e);
      var n: nat :| lo <= n < hi && st.log[n].entry == e;
      assert n in c.replayed;
    }
    if n :| n in c.replayed && n < |st.log| && FrameOf(st.log[n].entry, st.parses) == Some(f) {
      AboveMembers(retained, since, st.log[n].entry);
    }
  }

  // ------------------------------------------- when the subscription must be settled

  /** Entry `n` went past the replayed socket `s`: not replayed, not sent live, and not waiting to be sent. */
  ghost predicate Missed(st: Net, s: Sock, n: nat) {
    && At(st, s, Ready) && st.conns[s].cursor.Some? && n < |st.log| && st.trimmed <= n
    && Wanted(st, n, st.conns[s].cursor.value) && !SentBy(st, n, s)
    && n !in st.conns[s].replayed && n !in st.conns[s].live && !Pending(st, n, st.conns[s].inst)
  }

  ghost predicate Goes(st: Net, a: Action, st': Net) {
    Wired(st) && Enabled(st, a) && Apply(st, a) == st'
  }

  lemma Link(st: Net, a: Action, st': Net, rest: seq<Action>, end: Net)
    requires Goes(st, a, st') && Leads(st', rest, end)
    ensures Leads(st, [a] + rest, end)
  {
    assert ([a] + rest)[0] == a && ([a] + rest)[1..] == rest;
  }

  predicate HasRead(st: Net, s: Sock) {
    s in st.conns && (st.conns[s].phase.Ranged? || st.conns[s].phase.Ready?)
  }

  lemma RangeStays(st: Net, a: Action, s: Sock)
    requires Wired(st) && Enabled(st, a) && HasRead(st, s)
    ensures HasRead(Apply(st, a), s) && Apply(st, a).conns[s].range == st.conns[s].range
  {
    if ForRooms(a) {
      RangeStaysInRooms(st, a, s);
    } else if OnConn(a) {
      RangeStaysOnConn(st, a, s);
    } else {
      RangeStaysElsewhere(st, a, s);
    }
  }

  lemma RangeStaysInRooms(st: Net, a: Action, s: Sock)
    requires Wired(st) && Enabled(st, a) && ForRooms(a) && HasRead(st, s)
    ensures HasRead(Apply(st, a), s) && Apply(st, a).conns[s].range == st.conns[s].range
  {
  }

  lemma RangeStaysOnConn(st: Net, a: Action, s: Sock)
    requires Wired(st) && Enabled(st, a) && OnConn(a) && HasRead(st, s)
    ensures HasRead(Apply(st, a), s) && Apply(st, a).conns[s].range == st.conns[s].range
  {
    match a
    case CheckTrim(x) => assert x != s;
    case FailTrimCheck(x) => assert x != s;
    case ReadRange(x) => assert x != s;
    case FailRange(x) => assert x != s;
    case SkipReplay(x) => assert x != s;
    case _ =>
  }

  lemma RangeStaysElsewhere(st: Net, a: Action, s: Sock)
    requires Wired(st) && Enabled(st, a) && !ForRooms(a) && !OnConn(a) && HasRead(st, s)
    ensures HasRead(Apply(st, a), s) && Apply(st, a).conns[s].range == st.conns[s].range
  {
  }

  lemma {:induction false} RangeStaysOverRun(st: Net, actions: seq<Action>, end: Net, s: Sock)
    requires Leads(st, actions, end) && HasRead(st, s)
    ensures HasRead(end, s) && end.conns[s].range == st.conns[s].range
    decreases |actions|
  {
    if actions != [] {
      RangeStays(st, actions[0], s);
      RangeStaysOverRun(Apply(st, actions[0]), actions[1..], end, s);
    }
  }

  /** The outstanding commands run until the channel is no longer subscribed. */
  lemma {:induction false} RunsUnsubscribe(st: Net, s: Sock) returns (actions: seq<Action>, end: Net)
    requires Inv(st) && At(st, s, Ready) && !Subscribed(st.insts[st.conns[s].inst], st.doc)
    ensures Leads(st, actions, end) && Inv(end)
    ensures end.log == st.log && end.parses == st.parses && end.doc == st.doc && s in end.conns && end.conns[s] == st.conns[s]
    ensures st.doc !in end.insts[st.conns[s].inst].channels
    decreases |st.insts[st.conns[s].inst].queue|
  {
    var j := st.conns[s].inst;
    if st.doc !in st.insts[j].channels {
      return [], st;
    }
    var next := Apply(st, ExecuteCommand(j));
    StepKeepsInv(st, ExecuteCommand(j));
    assert next.insts[j] == ExecuteStep(st.insts[j]) && next.conns[s] == st.conns[s];
    var later;
    later, end := RunsUnsubscribe(next, s);
    Link(st, ExecuteCommand(j), next, later, end);
    actions := [ExecuteCommand(j)] + later;
  }

  /** The appended entry waits to be published, and the socket has not got it. */
  ghost predicate Unheard(st: Net, s: Sock, n: nat) {
    && Inv(st) && At(st, s, Ready) && st.conns[s].cursor.Some? && st.conns[s].inst in st.insts
    && |st.log| == n + 1 && st.trimmed <= n && n in st.toPublish && st.log[n].source.FromApi? && n !in st.toBroadcast
    && Wanted(st, n, st.conns[s].cursor.value) && n !in st.conns[s].live && n !in st.conns[s].replayed
    && (st.conns[s].inst in st.inbox ==> n !in st.inbox[st.conns[s].inst])
    && st.doc !in st.insts[st.conns[s].inst].channels
  }

  lemma AppendedUnheard(st: Net, s: Sock, e: Entry)
    requires Inv(st) && At(st, s, Ready) && st.conns[s].inst in st.insts && st.conns[s].cursor.Some?
    requires st.doc !in st.insts[st.conns[s].inst].channels
    requires FreshId(st.log, e) && FrameOf(e, st.parses).Some? && Streams.Precedes(st.conns[s].cursor.value, e.id)
    ensures Unheard(Apply(st, AppendOps(e)), s, |st.log|)
  {
    assert ConnOk(st, s, st.conns[s]);
    StepKeepsInv(st, AppendOps(e));
  }

  lemma PublishMissed(st: Net, s: Sock, n: nat)
    requires Unheard(st, s, n)
    ensures Missed(Apply(st, Publish(n)), s, n)
  {
  }

  /** An entry published while the channel is not subscribed goes past a socket that has read the stream. */
  lemma PublishedUnheard(st: Net, s: Sock, e: Entry) returns (end: Net)
    requires Inv(st) && At(st, s, Ready) && st.conns[s].cursor.Some? && st.doc !in st.insts[st.conns[s].inst].channels
    requires FreshId(st.log, e) && FrameOf(e, st.parses).Some? && Streams.Precedes(st.conns[s].cursor.value, e.id)
    ensures Leads(st, [AppendOps(e)] + [Publish(|st.log|)], end) && Missed(end, s, |st.log|)
  {
    var n, mid := |st.log|, Apply(st, AppendOps(e));
    AppendedUnheard(st, s, e);
    PublishMissed(mid, s, n);
    end := Apply(mid, Publish(n));
    Link(mid, Publish(n), end, [], end);
    Link(st, AppendOps(e), mid, [Publish(n)], end);
  }

  /** Whatever happens next, no entry goes past the socket. */
  ghost predicate NeverMisses(st: Net, s: Sock) {
    forall actions, end, n :: Leads(st, actions, end) ==> !Missed(end, s, n)
  }

  lemma SettledMissesNothing(st: Net, s: Sock)
    requires Inv(st) && HasRead(st, s) && st.conns[s].range.Some? && st.conns[s].range.value.settled
    ensures NeverMisses(st, s)
  {
    forall actions, end, n | Leads(st, actions, end)
      ensures !Missed(end, s, n)
    {
      RunKeepsInv(st, actions, end);
      RangeStaysOverRun(st, actions, end, s);
      assert ConnOk(end, s, end.conns[s]);
    }
  }

  function LatestMs(log: seq<Item>): nat {
    if log == [] then 0
    else
      var before, ms := LatestMs(log[..|log| - 1]), log[|log| - 1].entry.id.ms;
      if before < ms then ms else before
  }

  lemma {:induction false} LatestMsIsLatest(log: seq<Item>)
    ensures forall i :: 0 <= i < |log| ==> log[i].entry.id.ms <= LatestMs(log)
  {
    if log != [] {
      LatestMsIsLatest(log[..|log| - 1]);
      assert forall i :: 0 <= i < |log| - 1 ==> log[i] == log[..|log| - 1][i];
    }
  }

  /** There is always a delta that can be appended next and that a socket with cursor `c` wants. */
  lemma NextDelta(log: seq<Item>, parses: string -> bool, c: StreamId) returns (e: Entry)
    ensures FreshId(log, e) && FrameOf(e, parses).Some? && Streams.Precedes(c, e.id)
  {
    LatestMsIsLatest(log);
    var id := StreamId(LatestMs(log) + c.ms + 1, 0);
    e := Entry(id, Handlers.CrdtFields("b", "d", "1"));
    Handlers.ReplayedAsSent(id, "b", "d", "1", parses);
  }

  /**
   * A socket about to read the stream will never miss an entry, whatever happens from then
   * on, exactly if its instance's subscription is active with no UNSUBSCRIBE outstanding.
   */
  lemma SettledIff(st: Net, s: Sock)
    requires Inv(st) && At(st, s, Checked) && st.conns[s].inst in st.insts
    ensures Subscribed(st.insts[st.conns[s].inst], st.doc) <==> NeverMisses(Apply(st, ReadRange(s)), s)
  {
    var read := Apply(st, ReadRange(s));
    StepKeepsInv(st, ReadRange(s));
    if Subscribed(st.insts[st.conns[s].inst], st.doc) {
      SettledMissesNothing(read, s);
    } else {
      assert ConnOk(st, s, st.conns[s]);
      var e := NextDelta(st.log, st.parses, st.conns[s].cursor.value);
      var actions, end := MissesWhenUnsettled(read, s, e);
    }
  }

  lemma MissesWhenUnsettled(st: Net, s: Sock, e: Entry) returns (actions: seq<Action>, end: Net)
    requires Inv(st) && At(st, s, Ranged) && !Subscribed(st.insts[st.conns[s].inst], st.doc)
    requires FreshId(st.log, e) && FrameOf(e, st.parses).Some?
    requires st.conns[s].cursor.Some? && Streams.Precedes(st.conns[s].cursor.value, e.id)
    ensures Leads(st, actions, end) && Missed(end, s, |st.log|)
  {
    var ready := Apply(st, SendReplay(s));
    StepKeepsInv(st, SendReplay(s));
    var as1, mid := RunsUnsubscribe(ready, s);
    end := PublishedUnheard(mid, s, e);
    LeadsConcat(ready, as1, mid, [AppendOps(e)] + [Publish(|mid.log|)], end);
    Link(st, SendReplay(s), ready, as1 + ([AppendOps(e)] + [Publish(|mid.log|)]), end);
    actions := [SendReplay(s)] + (as1 + ([AppendOps(e)] + [Publish(|mid.log|)]));
  }

  // ------------------------------------------------------ sockets that stay behind

  /** In every reached state a room holds exactly the sockets that are open or were closed before their handler finished. */
  lemma InRoomIff(start: Net, actions: seq<Action>, st: Net, s: Sock)
    requires Reached(start, actions, st) && s in st.conns
    ensures st.conns[s].inst in st.insts
    ensures s in RoomOf(st, st.conns[s].inst) <==> st.conns[s].open || !st.conns[s].phase.Ready?
  {
    ReachedIsOk(start, actions, st);
    assert ConnOk(st, s, st.conns[s]);
  }

  /** Closed before the close listener was attached: nothing will take the socket out of its room. */
  predicate Stranded(st: Net, s: Sock, j: Inst) {
    s in st.conns && st.conns[s].inst == j && !st.conns[s].open && !st.conns[s].phase.Ready?
  }

  /**
   * An open socket gets stranded in four ways only: its connection breaks early, its
   * SUBSCRIBE fails, its replay detects a trim, or its XRANGE fails.
   */
  lemma StrandedIff(st: Net, a: Action, s: Sock)
    requires Wired(st) && Enabled(st, a) && s in st.conns && st.conns[s].open
    ensures Stranded(Apply(st, a), s, st.conns[s].inst) <==>
              || a == Drop(s) || a == FailRange(s)
              || (a == FailCommand(st.conns[s].inst) && st.conns[s].phase.Joining? && st.conns[s].phase.ahead <= 1)
              || (a == CheckTrim(s) && TrimDetected(FirstRetained(Entries(st.log), st.trimmed), st.conns[s].cursor.value))
  {
  }

  /** A closed connection stays closed, with its inst and range; it may end to wait while its phase is not Ready. */
  ghost predicate ClosedStays(st: Net, a: Action, s: Sock)
    requires Wired(st) && Enabled(st, a) && s in st.conns
  {
    var c := st.conns[s];
    && s in Apply(st, a).conns
    && var c' := Apply(st, a).conns[s];
       c' == c || (c.phase.Joining? && (c'.phase.Joining? || c'.phase.Joined? || c'.phase.Failed?) && c' == c.(phase := c'.phase))
  }

  lemma ClosedInRooms(st: Net, a: Action, s: Sock)
    requires Wired(st) && Enabled(st, a) && ForRooms(a) && s in st.conns && !st.conns[s].open
    ensures ClosedStays(st, a, s)
  {
  }

  lemma ClosedElsewhere(st: Net, a: Action, s: Sock)
    requires Wired(st) && Enabled(st, a) && !ForRooms(a) && s in st.conns && !st.conns[s].open
    ensures ClosedStays(st, a, s)
  {
  }

  lemma ClosedAfter(st: Net, a: Action, s: Sock)
    requires Wired(st) && Enabled(st, a) && s in st.conns && !st.conns[s].open
    ensures ClosedStays(st, a, s)
  {
    if ForRooms(a) {
      ClosedInRooms(st, a, s);
    } else {
      ClosedElsewhere(st, a, s);
    }
  }

  lemma StrandedStays(st: Net, a: Action, s: Sock, j: Inst)
    requires Wired(st) && Enabled(st, a) && Stranded(st, s, j)
    ensures Stranded(Apply(st, a), s, j)
  {
    ClosedAfter(st, a, s);
  }

  /** The UNSUBSCRIBEs of the document that are outstanding on an instance. */
  function Unsubscribes(st: Net, j: Inst): nat
    requires j in st.insts
  {
    multiset(st.insts[j].queue)[Unsubscribe(st.doc)]
  }

  lemma CountAfterIssue(queue: seq<Command>, c: Command, counted: Command)
    ensures multiset(queue + [c])[counted] == multiset(queue)[counted] + if c == counted then 1 else 0
  {
  }

  lemma CountAfterExecute(queue: seq<Command>, counted: Command)
    requires queue != []
    ensures multiset(queue[1..])[counted] <= multiset(queue)[counted]
  {
    assert queue == [queue[0]] + queue[1..];
  }

  /** What the action makes of the rooms and commands of instance `j`. */
  predicate RegistryStep(st: Net, a: Action, j: Inst, r: Registry<Sock>)
    requires j in st.insts
  {
    var before := st.insts[j];
    match a
    case Connect(s, i, _) => r == if i == j then JoinStep(before, st.doc, s) else before
    case ExecuteCommand(i) => r == if i == j then ExecuteStep(before) else before
    case FailCommand(i) => r == if i == j then FailStep(before) else before
    case Close(s) => s in st.conns && st.conns[s].phase.Ready? && r == if st.conns[s].inst == j then LeaveStep(before, st.doc, s) else before
    case OtherRoom(i, e) => !e.Executes? && e.doc != st.doc && r == if i == j then EventStep(before, e) else before
    case _ => r == before
  }

  lemma RegistryAfter(st: Net, a: Action, j: Inst)
    requires Wired(st) && Enabled(st, a) && j in st.insts
    ensures j in Apply(st, a).insts && RegistryStep(st, a, j, Apply(st, a).insts[j])
  {
  }

  lemma StrandedKeepsQueue(st: Net, a: Action, s: Sock, j: Inst, r: Registry<Sock>)
    requires j in st.insts && InRoom(st, s, j) && RegistryStep(st, a, j, r) && (a.Close? ==> a.s != s)
    ensures multiset(r.queue)[Unsubscribe(st.doc)] <= multiset(st.insts[j].queue)[Unsubscribe(st.doc)]
  {
    var queue, u := st.insts[j].queue, Unsubscribe(st.doc);
    match a
    case Connect(x, i, _) => CountAfterIssue(queue, Subscribe(st.doc), u);
    case ExecuteCommand(i) =>
      if queue != [] {
        CountAfterExecute(queue, u);
      }
    case FailCommand(i) =>
      if queue != [] {
        CountAfterExecute(queue, u);
      }
    case Close(x) => assert s in RoomOf(st, j) - {x};
    case OtherRoom(i, e) =>
      CountAfterIssue(queue, Subscribe(e.doc), u);
      CountAfterIssue(queue, Unsubscribe(e.doc), u);
    case _ =>
  }

  lemma DocStays(st: Net, a: Action)
    requires Wired(st) && Enabled(st, a)
    ensures Apply(st, a).doc == st.doc
  {
  }

  /** While a socket is stranded in the room, its instance issues no UNSUBSCRIBE for the document. */
  lemma StrandedKeepsSubscription(st: Net, a: Action, s: Sock, j: Inst)
    requires Inv(st) && Enabled(st, a) && Stranded(st, s, j)
    ensures j in st.insts && j in Apply(st, a).insts && Unsubscribes(Apply(st, a), j) <= Unsubscribes(st, j)
  {
    assert ConnOk(st, s, st.conns[s]);
    RegistryAfter(st, a, j);
    DocStays(st, a);
    StrandedKeepsQueue(st, a, s, j, Apply(st, a).insts[j]);
  }

  /** Such a socket stays in its room for every later run, and its instance never issues another UNSUBSCRIBE for the document. */
  lemma {:induction false} StrandedForGood(st: Net, actions: seq<Action>, end: Net, s: Sock, j: Inst)
    requires Inv(st) && Leads(st, actions, end) && Stranded(st, s, j)
    ensures Stranded(end, s, j) && j in st.insts && j in end.insts && s in RoomOf(end, j)
    ensures Unsubscribes(end, j) <= Unsubscribes(st, j)
    decreases |actions|
  {
    assert ConnOk(st, s, st.conns[s]);
    assert InRoom(st, s, j);
    if actions != [] {
      StepKeepsInv(st, actions[0]);
      StrandedStays(st, actions[0], s, j);
      StrandedKeepsSubscription(st, actions[0], s, j);
      StrandedForGood(Apply(st, actions[0]), actions[1..], end, s, j);
    }
  }

  /** Its SUBSCRIBE was rejected: the socket is closed, and keeps the room non-empty. */
  predicate Rejected(st: Net, s: Sock, j: Inst) {
    s in st.conns && st.conns[s].inst == j && st.conns[s].phase.Failed?
  }

  lemma RejectedKeepsChannel(st: Net, a: Action, s: Sock, j: Inst, r: Registry<Sock>)
    requires j in st.insts && Rejected(st, s, j) && SubscriptionOk(st, s, st.conns[s]) && RegistryStep(st, a, j, r)
    ensures st.doc in r.channels <==> st.doc in st.insts[j].channels
  {
    var queue := st.insts[j].queue;
    if a.ExecuteCommand? && queue != [] {
      assert queue[0] in queue;
    }
  }

  lemma RejectedStays(st: Net, a: Action, s: Sock, j: Inst)
    requires Wired(st) && Enabled(st, a) && Rejected(st, s, j) && !st.conns[s].open
    ensures Rejected(Apply(st, a), s, j)
  {
    ClosedAfter(st, a, s);
  }

  lemma RejectedStep(st: Net, a: Action, s: Sock, j: Inst)
    requires Inv(st) && Enabled(st, a) && Rejected(st, s, j)
    ensures Rejected(Apply(st, a), s, j) && j in st.insts && j in Apply(st, a).insts && Apply(st, a).doc == st.doc
    ensures st.doc in Apply(st, a).insts[j].channels <==> st.doc in st.insts[j].channels
  {
    assert ConnOk(st, s, st.conns[s]);
    RejectedStays(st, a, s, j);
    RegistryAfter(st, a, j);
    DocStays(st, a);
    RejectedKeepsChannel(st, a, s, j, Apply(st, a).insts[j]);
  }

  /** Whatever happens after a rejected SUBSCRIBE, the instance neither subscribes to the document again nor leaves its channel. */
  lemma {:induction false} RejectedForGood(st: Net, actions: seq<Action>, end: Net, s: Sock, j: Inst)
    requires Inv(st) && Leads(st, actions, end) && Rejected(st, s, j)
    ensures Rejected(end, s, j) && end.doc == st.doc && j in st.insts && j in end.insts
    ensures st.doc in end.insts[j].channels <==> st.doc in st.insts[j].channels
    decreases |actions|
  {
    assert ConnOk(st, s, st.conns[s]);
    if actions != [] {
      StepKeepsInv(st, actions[0]);
      RejectedStep(st, actions[0], s, j);
      RejectedForGood(Apply(st, actions[0]), actions[1..], end, s, j);
    }
  }

  /**
   * A socket that reads the stream on such an instance, at any later time, never misses an
   * entry exactly if the channel was subscribed when the SUBSCRIBE was rejected.
   */
  lemma AfterRejectionIff(st: Net, actions: seq<Action>, end: Net, s: Sock, j: Inst, x: Sock)
    requires Inv(st) && Leads(st, actions, end) && Rejected(st, s, j)
    requires At(end, x, Checked) && end.conns[x].inst == j
    ensures j in st.insts && Inv(end)
    ensures NeverMisses(Apply(end, ReadRange(x)), x) <==> st.doc in st.insts[j].channels
  {
    RejectedForGood(st, actions, end, s, j);
    RunKeepsInv(st, actions, end);
    assert ConnOk(end, s, end.conns[s]);
    SettledIff(end, x);
  }

  // ------------------------------------------------------------ counterexample

  const IDLE: Registry<Sock> := Registry(map[], [], {})

  /** A single instance, 0, with this registry and connections of its own; nothing is trimmed, broadcast or on the bus. */
  function Shot(doc: nat, parses: string -> bool, r: Registry<Sock>, conns: map<Sock, Conn>): Net {
    Net(doc, parses, [], 0, map[0 := r], map[0 := []], conns, {}, {})
  }

  /** A connection that has read nothing. */
  function Fresh(cursor: Option<StreamId>, phase: Phase, open: bool, first: bool): Conn {
    Conn(0, cursor, phase, open, first, None, [], {}, 0)
  }

  /** Socket 10 alone, in the given state. */
  function Ten(phase: Phase, open: bool): map<Sock, Conn> {
    map[10 := Fresh(None, phase, open, true)]
  }

  /** Socket 10 has left and 11 waits for its SUBSCRIBE. */
  function Eleven(ahead: nat): map<Sock, Conn> {
    Ten(Ready, false)[11 := Fresh(None, Joining(ahead), true, true)]
  }

  function Twelve(ahead: nat, c: Conn): map<Sock, Conn> {
    Eleven(ahead)[12 := c]
  }

  function Room(doc: nat, members: set<Sock>, queue: seq<Command>, channels: set<nat>): Registry<Sock> {
    Registry(map[doc := members], queue, channels)
  }

  lemma FirstJoin(r: Registry<Sock>, doc: nat, s: Sock)
    requires r.rooms == map[]
    ensures JoinStep(r, doc, s) == Room(doc, {s}, r.queue + [Subscribe(doc)], r.channels)
  {
    var none: set<Sock> := {};
    assert none + {s} == {s};
  }

  /** Connections of instance 0 that have read nothing. */
  predicate NothingRead(conns: map<Sock, Conn>) {
    forall x :: x in conns ==> conns[x].inst == 0 && conns[x].range.None? && !conns[x].phase.Ranged? && !conns[x].phase.Checked?
  }

  lemma ShotWired(doc: nat, parses: string -> bool, r: Registry<Sock>, conns: map<Sock, Conn>)
    requires NothingRead(conns)
    ensures Wired(Shot(doc, parses, r, conns))
  {
  }

  lemma JoinRuns(doc: nat, parses: string -> bool, r: Registry<Sock>, conns: map<Sock, Conn>, s: Sock, cursor: Option<StreamId>,
                 r': Registry<Sock>, conns': map<Sock, Conn>)
    requires NothingRead(conns) && s !in conns && r' == JoinStep(r, doc, s)
    requires var first := Members(r, doc) == {};
             conns' == conns[s := Fresh(cursor, if first then Joining(|r'.queue|) else Joined, true, first)]
    ensures Goes(Shot(doc, parses, r, conns), Connect(s, 0, cursor), Shot(doc, parses, r', conns'))
  {
    ShotWired(doc, parses, r, conns);
    assert map[0 := r][0 := r'] == map[0 := r'];
  }

  lemma TenJoins(doc: nat, parses: string -> bool)
    ensures Goes(Shot(doc, parses, IDLE, map[]), Connect(10, 0, None),
                 Shot(doc, parses, Room(doc, {10}, [Subscribe(doc)], {}), Ten(Joining(1), true)))
  {
    FirstJoin(IDLE, doc, 10);
    assert IDLE.queue + [Subscribe(doc)] == [Subscribe(doc)];
    JoinRuns(doc, parses, IDLE, map[], 10, None, Room(doc, {10}, [Subscribe(doc)], {}), Ten(Joining(1), true));
  }

  lemma CommandRuns(doc: nat, parses: string -> bool, r: Registry<Sock>, conns: map<Sock, Conn>, r': Registry<Sock>, conns': map<Sock, Conn>)
    requires NothingRead(conns) && r.queue != []
    requires ExecuteStep(r) == r' && (map x | x in conns :: Advance(conns[x], 0)) == conns'
    ensures Goes(Shot(doc, parses, r, conns), ExecuteCommand(0), Shot(doc, parses, r', conns'))
  {
    ShotWired(doc, parses, r, conns);
    assert map[0 := r][0 := r'] == map[0 := r'];
  }

  lemma TenSubscribes(doc: nat, parses: string -> bool)
    ensures Goes(Shot(doc, parses, Room(doc, {10}, [Subscribe(doc)], {}), Ten(Joining(1), true)), ExecuteCommand(0),
                 Shot(doc, parses, Room(doc, {10}, [], {doc}), Ten(Joined, true)))
  {
    assert ExecuteStep(Room(doc, {10}, [Subscribe(doc)], {})) == Room(doc, {10}, [], {doc});
    var conns := Ten(Joining(1), true);
    assert (map x | x in conns :: Advance(conns[x], 0)) == Ten(Joined, true);
    CommandRuns(doc, parses, Room(doc, {10}, [Subscribe(doc)], {}), conns, Room(doc, {10}, [], {doc}), Ten(Joined, true));
  }

  lemma TenIsReady(doc: nat, parses: string -> bool)
    ensures Goes(Shot(doc, parses, Room(doc, {10}, [], {doc}), Ten(Joined, true)), SkipReplay(10),
                 Shot(doc, parses, Room(doc, {10}, [], {doc}), Ten(Ready, true)))
  {
  }

  function Ending(doc: nat): Registry<Sock> {
    Registry(map[], [Unsubscribe(doc)], {doc})
  }

  lemma TenLeaves(doc: nat, parses: string -> bool)
    ensures Goes(Shot(doc, parses, Room(doc, {10}, [], {doc}), Ten(Ready, true)), Close(10),
                 Shot(doc, parses, Ending(doc), Ten(Ready, false)))
  {
    var r := Room(doc, {10}, [], {doc});
    assert LeaveStep(r, doc, 10) == Ending(doc) by {
      assert r.rooms[doc] - {10} == {} && r.rooms - {doc} == map[];
    }
    var conns := Ten(Ready, true);
    assert conns[10 := conns[10].(open := false)] == Ten(Ready, false);
  }

  /** The UNSUBSCRIBE of 10 and the SUBSCRIBE of 11 are outstanding. */
  function Overlap(doc: nat, members: set<Sock>): Registry<Sock> {
    Room(doc, members, [Unsubscribe(doc), Subscribe(doc)], {doc})
  }

  lemma ElevenJoins(doc: nat, parses: string -> bool)
    ensures Goes(Shot(doc, parses, Ending(doc), Ten(Ready, false)), Connect(11, 0, None), Shot(doc, parses, Overlap(doc, {11}), Eleven(2)))
  {
    FirstJoin(Ending(doc), doc, 11);
    assert [Unsubscribe(doc)] + [Subscribe(doc)] == [Unsubscribe(doc), Subscribe(doc)];
    JoinRuns(doc, parses, Ending(doc), Ten(Ready, false), 11, None, Overlap(doc, {11}), Eleven(2));
  }

  lemma TwelveJoins(doc: nat, parses: string -> bool)
    ensures Goes(Shot(doc, parses, Overlap(doc, {11}), Eleven(2)), Connect(12, 0, Some(ZERO)),
                 Shot(doc, parses, Overlap(doc, {11, 12}), Twelve(2, Fresh(Some(ZERO), Joined, true, false))))
  {
    assert JoinStep(Overlap(doc, {11}), doc, 12) == Overlap(doc, {11, 12}) by {
      assert {11} + {12} == {11, 12};
    }
    JoinRuns(doc, parses, Overlap(doc, {11}), Eleven(2), 12, Some(ZERO),
             Overlap(doc, {11, 12}), Twelve(2, Fresh(Some(ZERO), Joined, true, false)));
  }

  lemma TwelveChecks(doc: nat, parses: string -> bool)
    ensures Goes(Shot(doc, parses, Overlap(doc, {11, 12}), Twelve(2, Fresh(Some(ZERO), Joined, true, false))), CheckTrim(12),
                 Shot(doc, parses, Overlap(doc, {11, 12}), Twelve(2, Fresh(Some(ZERO), Checked, true, false))))
  {
  }

  lemma ThreeSteps(s0: Net, a0: Action, s1: Net, a1: Action, s2: Net, a2: Action, s3: Net, rest: seq<Action>, end: Net)
    requires Goes(s0, a0, s1) && Goes(s1, a1, s2) && Goes(s2, a2, s3) && Leads(s3, rest, end)
    ensures Leads(s0, [a0] + ([a1] + ([a2] + rest)), end)
  {
    Link(s2, a2, s3, rest, end);
    Link(s1, a1, s2, [a2] + rest, end);
    Link(s0, a0, s1, [a1] + ([a2] + rest), end);
  }

  /** Socket 12 is about to read the stream. */
  function AboutToRead(doc: nat, parses: string -> bool): Net {
    Shot(doc, parses, Overlap(doc, {11, 12}), Twelve(2, Fresh(Some(ZERO), Checked, true, false)))
  }

  lemma ReachesAboutToRead(doc: nat, parses: string -> bool) returns (before: seq<Action>)
    ensures Leads(Shot(doc, parses, IDLE, map[]), before, AboutToRead(doc, parses))
  {
    var ready := Shot(doc, parses, Room(doc, {10}, [], {doc}), Ten(Ready, true));
    var early := Shot(doc, parses, Overlap(doc, {11, 12}), Twelve(2, Fresh(Some(ZERO), Joined, true, false)));
    var end := AboutToRead(doc, parses);
    TwelveChecks(doc, parses);
    Link(early, CheckTrim(12), end, [], end);
    var late := LeaveAndJoin(doc, parses, [CheckTrim(12)], end);
    TenJoins(doc, parses);
    TenSubscribes(doc, parses);
    TenIsReady(doc, parses);
    before := [Connect(10, 0, None)] + ([ExecuteCommand(0)] + ([SkipReplay(10)] + late));
    ThreeSteps(Shot(doc, parses, IDLE, map[]), Connect(10, 0, None),
               Shot(doc, parses, Room(doc, {10}, [Subscribe(doc)], {}), Ten(Joining(1), true)), ExecuteCommand(0),
               Shot(doc, parses, Room(doc, {10}, [], {doc}), Ten(Joined, true)), SkipReplay(10), ready, late, end);
  }

  lemma LeaveAndJoin(doc: nat, parses: string -> bool, rest: seq<Action>, end: Net) returns (actions: seq<Action>)
    requires Leads(Shot(doc, parses, Overlap(doc, {11, 12}), Twelve(2, Fresh(Some(ZERO), Joined, true, false))), rest, end)
    ensures Leads(Shot(doc, parses, Room(doc, {10}, [], {doc}), Ten(Ready, true)), actions, end)
  {
    var ready := Shot(doc, parses, Room(doc, {10}, [], {doc}), Ten(Ready, true));
    var early := Shot(doc, parses, Overlap(doc, {11, 12}), Twelve(2, Fresh(Some(ZERO), Joined, true, false)));
    TenLeaves(doc, parses);
    ElevenJoins(doc, parses);
    TwelveJoins(doc, parses);
    actions := [Close(10)] + ([Connect(11, 0, None)] + ([Connect(12, 0, Some(ZERO))] + rest));
    ThreeSteps(ready, Close(10), Shot(doc, parses, Ending(doc), Ten(Ready, false)), Connect(11, 0, None),
               Shot(doc, parses, Overlap(doc, {11}), Eleven(2)), Connect(12, 0, Some(ZERO)), early, rest, end);
  }

  /**
   * An active subscription when XRANGE runs is not enough: some actions lead from an initial
   * state to one in which socket 12 is about to read the stream and its channel is active,
   * but an older UNSUBSCRIBE is outstanding, so that an entry can go past it.
   */
  lemma ActiveSubscriptionIsNotEnough(doc: nat, parses: string -> bool)
    returns (start: Net, before: seq<Action>, atRange: Net)
    ensures Reached(start, before, atRange) && Inv(atRange) && At(atRange, 12, Checked) && atRange.conns[12].inst in atRange.insts
    ensures doc == atRange.doc && doc in atRange.insts[atRange.conns[12].inst].channels
    ensures !NeverMisses(Apply(atRange, ReadRange(12)), 12)
  {
    start, atRange := Shot(doc, parses, IDLE, map[]), AboutToRead(doc, parses);
    before := ReachesAboutToRead(doc, parses);
    ReachedIsOk(start, before, atRange);
    SettledIff(atRange, 12);
  }

  lemma TenDrops(doc: nat, parses: string -> bool)
    ensures Goes(Shot(doc, parses, Room(doc, {10}, [], {doc}), Ten(Joined, true)), Drop(10),
                 Shot(doc, parses, Room(doc, {10}, [], {doc}), Ten(Joined, false)))
  {
    var conns := Ten(Joined, true);
    assert conns[10 := conns[10].(open := false)] == Ten(Joined, false);
  }

  lemma ReachesStranded(doc: nat, parses: string -> bool) returns (actions: seq<Action>)
    ensures Leads(Shot(doc, parses, IDLE, map[]), actions, Shot(doc, parses, Room(doc, {10}, [], {doc}), Ten(Joined, false)))
  {
    var end := Shot(doc, parses, Room(doc, {10}, [], {doc}), Ten(Joined, false));
    TenDrops(doc, parses);
    TenJoins(doc, parses);
    TenSubscribes(doc, parses);
    actions := [Connect(10, 0, None)] + ([ExecuteCommand(0)] + ([Drop(10)] + []));
    ThreeSteps(Shot(doc, parses, IDLE, map[]), Connect(10, 0, None),
               Shot(doc, parses, Room(doc, {10}, [Subscribe(doc)], {}), Ten(Joining(1), true)), ExecuteCommand(0),
               Shot(doc, parses, Room(doc, {10}, [], {doc}), Ten(Joined, true)), Drop(10), end, [], end);
  }

  /** A socket that is closed right after joining is stranded: it is in its room, and the channel stays subscribed for it. */
  lemma DroppedIsStranded(doc: nat, parses: string -> bool) returns (start: Net, actions: seq<Action>, end: Net)
    ensures Reached(start, actions, end) && end.doc == doc && Inv(end) && Stranded(end, 10, 0) && 10 in RoomOf(end, 0)
    ensures end.insts[0].queue == [] && doc in end.insts[0].channels
  {
    start, end := Shot(doc, parses, IDLE, map[]), Shot(doc, parses, Room(doc, {10}, [], {doc}), Ten(Joined, false));
    actions := ReachesStranded(doc, parses);
    ReachedIsOk(start, actions, end);
  }

  lemma TenFails(doc: nat, parses: string -> bool)
    ensures Goes(Shot(doc, parses, Room(doc, {10}, [Subscribe(doc)], {}), Ten(Joining(1), true)), FailCommand(0),
                 Shot(doc, parses, Room(doc, {10}, [], {}), Ten(Failed, false)))
  {
    var r, conns := Room(doc, {10}, [Subscribe(doc)], {}), Ten(Joining(1), true);
    ShotWired(doc, parses, r, conns);
    assert FailStep(r) == Room(doc, {10}, [], {});
    assert map[0 := r][0 := FailStep(r)] == map[0 := FailStep(r)];
    assert (map x | x in conns :: Disappoint(conns[x], 0)) == Ten(Failed, false);
  }

  /** A SUBSCRIBE that is rejected on an idle instance: no later run subscribes the channel there. */
  lemma FailedIsRejected(doc: nat, parses: string -> bool) returns (start: Net, actions: seq<Action>, end: Net)
    ensures Reached(start, actions, end) && end.doc == doc && Inv(end) && Rejected(end, 10, 0)
    ensures doc !in end.insts[0].channels
    ensures forall more, last :: Leads(end, more, last) ==> 0 in last.insts && doc !in last.insts[0].channels
  {
    start, end := Shot(doc, parses, IDLE, map[]), Shot(doc, parses, Room(doc, {10}, [], {}), Ten(Failed, false));
    var mid := Shot(doc, parses, Room(doc, {10}, [Subscribe(doc)], {}), Ten(Joining(1), true));
    TenJoins(doc, parses);
    TenFails(doc, parses);
    Link(mid, FailCommand(0), end, [], end);
    Link(start, Connect(10, 0, None), mid, [FailCommand(0)] + [], end);
    actions := [Connect(10, 0, None)] + ([FailCommand(0)] + []);
    ReachedIsOk(start, actions, end);
    forall more, last | Leads(end, more, last)
      ensures 0 in last.insts && doc !in last.insts[0].channels
    {
      RejectedForGood(end, more, last, 10, 0);
    }
  }
}
