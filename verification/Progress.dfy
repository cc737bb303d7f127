/** Nothing that waits to be sent is stuck, and a replay sends what is retained: apps/ws/src/handlers/crdt.ts, bus.ts and replay.ts. */
module Progress {
  import opened Wrappers
  import opened Streams
  import opened Replay
  import opened Rooms
  import opened Delivery

  /** The socket is open, its instance is subscribed, and it is to get entry `n`, which somebody else appended. */
  ghost predicate Expects(st: Net, s: Sock, n: nat) {
    && Inv(st) && s in st.conns && st.conns[s].open && n < |st.log| && !SentBy(st, n, s)
    && st.conns[s].inst in st.insts && st.doc in st.insts[st.conns[s].inst].channels
  }

  // ------------------------------------------------------------------- from the bus

  ghost predicate OnBus(st: Net, s: Sock, n: nat) {
    && Expects(st, s, n) && !IsFrom(st, n, st.conns[s].inst)
    && st.conns[s].inst in st.inbox && n in st.inbox[st.conns[s].inst]
  }

  lemma HandsOne(st: Net, s: Sock, n: nat) returns (next: Net)
    requires OnBus(st, s, n)
    ensures var j := st.conns[s].inst;
            && Goes(st, HandBusMessage(j), next) && s in next.conns && next.conns[s].inst == j && j in next.inbox
            && next.inbox[j] == st.inbox[j][1..]
            && if st.inbox[j][0] == n then n in next.conns[s].live else OnBus(next, s, n)
  {
    var j := st.conns[s].inst;
    next := Hands(st, s, j);
    assert st.inbox[j] == [st.inbox[j][0]] + st.inbox[j][1..];
  }

  /** The first message is taken from the bus; the socket stays open on its instance. */
  lemma Hands(st: Net, s: Sock, j: Inst) returns (next: Net)
    requires Inv(st) && s in st.conns && st.conns[s].inst == j && j in st.inbox && st.inbox[j] != [] && j in st.insts
    ensures Goes(st, HandBusMessage(j), next) && Inv(next) && next == st.(conns := next.conns, inbox := st.inbox[j := st.inbox[j][1..]])
    ensures s in next.conns && next.conns[s] == st.conns[s].(live := next.conns[s].live)
    ensures var n := st.inbox[j][0];
            n < |st.log| && !IsFrom(st, n, j) && !SentBy(st, n, s) && st.conns[s].open ==> n in next.conns[s].live
  {
    assert ConnOk(st, s, st.conns[s]);
    HandReaches(st, j, s, st.conns[s]);
    next := Apply(st, HandBusMessage(j));
    HandBusMessageStep(st, j);
  }

  /** The messages before it are handed over, and then it. */
  lemma {:induction false} HandsOver(st: Net, s: Sock, n: nat) returns (actions: seq<Action>, end: Net)
    requires OnBus(st, s, n)
    ensures Leads(st, actions, end) && s in end.conns && n in end.conns[s].live
    decreases |st.inbox[st.conns[s].inst]|
  {
    var j := st.conns[s].inst;
    var next := HandsOne(st, s, n);
    var rest: seq<Action>;
    if st.inbox[j][0] == n {
      rest, end := [], next;
    } else {
      rest, end := HandsOver(next, s, n);
    }
    Link(st, HandBusMessage(j), next, rest, end);
    actions := [HandBusMessage(j)] + rest;
  }

  // --------------------------------------------------------------- before the bus

  lemma PublishesTo(st: Net, s: Sock, n: nat) returns (next: Net)
    requires Expects(st, s, n) && !IsFrom(st, n, st.conns[s].inst) && n in st.toPublish
    ensures Goes(st, Publish(n), next) && OnBus(next, s, n)
  {
    next := Apply(st, Publish(n));
    PublishStep(st, n);
    var j := st.conns[s].inst;
    assert next.inbox[j][|st.inbox[j]|] == n;
  }

  lemma BroadcastsTo(st: Net, s: Sock, n: nat) returns (next: Net)
    requires Expects(st, s, n) && n in st.toBroadcast
    ensures Goes(st, Broadcast(n), next) && s in next.conns && next.conns[s].inst == st.conns[s].inst
    ensures if IsFrom(st, n, st.conns[s].inst) then n in next.conns[s].live
            else Expects(next, s, n) && !IsFrom(next, n, next.conns[s].inst) && n in next.toPublish
  {
    assert ConnOk(st, s, st.conns[s]);
    BroadcastReaches(st, n, s, st.conns[s]);
    next := Apply(st, Broadcast(n));
    BroadcastStep(st, n);
  }

  /** From its publish on. */
  lemma PublishedArrives(st: Net, s: Sock, n: nat) returns (actions: seq<Action>, end: Net)
    requires Expects(st, s, n) && !IsFrom(st, n, st.conns[s].inst) && n in st.toPublish
    ensures Leads(st, actions, end) && s in end.conns && n in end.conns[s].live
  {
    var next := PublishesTo(st, s, n);
    var rest;
    rest, end := HandsOver(next, s, n);
    Link(st, Publish(n), next, rest, end);
    actions := [Publish(n)] + rest;
  }

  lemma BroadcastArrives(st: Net, s: Sock, n: nat) returns (actions: seq<Action>, end: Net)
    requires Expects(st, s, n) && n in st.toBroadcast
    ensures Leads(st, actions, end) && s in end.conns && n in end.conns[s].live
  {
    var next := BroadcastsTo(st, s, n);
    var rest: seq<Action>;
    if IsFrom(st, n, st.conns[s].inst) {
      rest, end := [], next;
    } else {
      rest, end := PublishedArrives(next, s, n);
    }
    Link(st, Broadcast(n), next, rest, end);
    actions := [Broadcast(n)] + rest;
  }

  /**
   * Whatever is pending for a subscribed instance can be delivered: a run of nothing but
   * its handler's steps and bus messages sends it to every open socket there but its own.
   */
  lemma PendingArrives(st: Net, s: Sock, n: nat) returns (actions: seq<Action>, end: Net)
    requires Expects(st, s, n) && Pending(st, n, st.conns[s].inst)
    ensures Leads(st, actions, end) && s in end.conns && n in end.conns[s].live
  {
    if n in st.toBroadcast {
      actions, end := BroadcastArrives(st, s, n);
    } else if n in st.toPublish {
      actions, end := PublishedArrives(st, s, n);
    } else {
      actions, end := HandsOver(st, s, n);
    }
  }

  /** A socket that is ready can append a delta, which is its own and no other socket's, and is pending for every instance. */
  lemma DeltaIsPending(st: Net, s: Sock, e: Entry, x: Sock, j: Inst)
    requires Inv(st) && s in st.conns && st.conns[s].phase.Ready? && FreshId(st.log, e)
    ensures Enabled(st, AppendDelta(s, e))
    ensures var next, n := Apply(st, AppendDelta(s, e)), |st.log|;
            && Inv(next) && |next.log| == n + 1 && next.log[..n] == st.log && next.log[n].entry == e
            && (SentBy(next, n, x) <==> x == s) && IsFrom(next, n, st.conns[s].inst) && Pending(next, n, j)
            && next.conns == st.conns && next.insts == st.insts
  {
    AppendDeltaStep(st, s, e);
  }

  /** Operations can be appended at any time; they are no socket's, and are pending for every instance. */
  lemma OpsArePending(st: Net, e: Entry, x: Sock, j: Inst)
    requires Inv(st) && FreshId(st.log, e)
    ensures Enabled(st, AppendOps(e))
    ensures var next, n := Apply(st, AppendOps(e)), |st.log|;
            && Inv(next) && |next.log| == n + 1 && next.log[..n] == st.log && next.log[n].entry == e
            && !SentBy(next, n, x) && Pending(next, n, j) && next.conns == st.conns && next.insts == st.insts
  {
    AppendOpsStep(st, e);
  }

  /**
   * With a settled replay behind it, a socket gets everything it wants: what it has not
   * got yet, of all that was retained, some run still brings it.
   */
  lemma WantedArrives(start: Net, before: seq<Action>, st: Net, s: Sock, n: nat) returns (actions: seq<Action>, end: Net)
    requires Reached(start, before, st) && Replayed(st, s)
    requires n < |st.log| && Wanted(st, n, st.conns[s].cursor.value) && !SentBy(st, n, s)
    requires st.conns[s].range.value.kept <= n || st.trimmed <= n
    ensures Leads(st, actions, end) && s in end.conns && (n in end.conns[s].live || n in end.conns[s].replayed)
  {
    ReachedIsOk(start, before, st);
    NoMissedEntry(start, before, st, s, n);
    actions, end := [], st;
    if n !in st.conns[s].replayed && n !in st.conns[s].live {
      assert ConnOk(st, s, st.conns[s]);
      actions, end := PendingArrives(st, s, n);
    }
  }

  // ---------------------------------------------------------------------- the replay

  /** A socket about to read is replayed exactly what it wants of what has not been trimmed by then. */
  lemma ReplaysRetained(st: Net, s: Sock, n: nat)
    requires Inv(st) && At(st, s, Checked)
    ensures var read := Apply(st, ReadRange(s));
            && Inv(read) && Enabled(read, SendReplay(s))
            && var sent := Apply(read, SendReplay(s));
               && At(sent, s, Ready) && sent.conns[s].live == st.conns[s].live && sent.conns[s].early == |st.conns[s].live|
               && (n in sent.conns[s].replayed <==>
                     st.trimmed <= n < |st.log| && Streams.Precedes(st.conns[s].cursor.value, st.log[n].entry.id)
                     && FrameOf(st.log[n].entry, st.parses).Some?)
  {
    assert ConnOk(st, s, st.conns[s]);
    ReadRangeStep(st, s);
  }

  /** The wait for the own SUBSCRIBE ends once the commands before it and itself are executed. */
  lemma {:induction false} WaitEnds(st: Net, s: Sock) returns (actions: seq<Action>, end: Net)
    requires Inv(st) && s in st.conns && st.conns[s].open && st.conns[s].phase.Joining?
    ensures Leads(st, actions, end) && Inv(end) && At(end, s, Joined)
    decreases st.conns[s].phase.ahead
  {
    var j := st.conns[s].inst;
    assert ConnOk(st, s, st.conns[s]);
    var next := Apply(st, ExecuteCommand(j));
    ExecuteCommandStep(st, j);
    var rest: seq<Action>;
    if st.conns[s].phase.ahead == 1 {
      rest, end := [], next;
    } else {
      rest, end := WaitEnds(next, s);
    }
    Link(st, ExecuteCommand(j), next, rest, end);
    actions := [ExecuteCommand(j)] + rest;
  }

  /** A joined socket with a cursor goes on to read, unless the first retained entry is above that cursor, which is not 0-0. */
  lemma ChecksIff(st: Net, s: Sock)
    requires Inv(st) && At(st, s, Joined) && st.conns[s].cursor.Some?
    ensures var since, next := st.conns[s].cursor.value, Apply(st, CheckTrim(s));
            && s in next.conns
            && (At(next, s, Checked) <==>
                  !(since != ZERO && st.trimmed < |st.log| && Streams.Precedes(since, st.log[st.trimmed].entry.id)))
            && (At(next, s, Checked) || !next.conns[s].open)
  {
    if st.trimmed < |st.log| {
      CompareDecides(st.log[st.trimmed].entry.id, st.conns[s].cursor.value);
      CompareDecides(st.conns[s].cursor.value, st.log[st.trimmed].entry.id);
    }
  }

  /** If XINFO fails, it goes on to read in any case. */
  lemma UncheckedGoesOn(st: Net, s: Sock)
    requires Inv(st) && At(st, s, Joined) && st.conns[s].cursor.Some?
    ensures At(Apply(st, FailTrimCheck(s)), s, Checked)
  {
  }

  /** So nothing below a trim is replayed to a socket that reads after it. */
  lemma TrimmedIsNotReplayed(st: Net, k: nat, s: Sock, n: nat)
    requires Inv(st) && At(st, s, Checked) && st.trimmed <= k <= |st.log| && n < k
    ensures var trimmed := Apply(st, Trim(k));
            && Inv(trimmed) && At(trimmed, s, Checked)
            && var read := Apply(trimmed, ReadRange(s));
               && Inv(read) && Enabled(read, SendReplay(s)) && n !in Apply(read, SendReplay(s)).conns[s].replayed
  {
    var trimmed := Apply(st, Trim(k));
    TrimStep(st, k);
    assert trimmed == st.(trimmed := k);
    ReplaysRetained(trimmed, s, n);
  }

  // ------------------------------------------------------------------------ failures

  /** Until its handler has finished, a socket can always break, or be let down by Redis, and is stranded then. */
  lemma CanStrand(st: Net, s: Sock)
    requires Inv(st) && s in st.conns && st.conns[s].open && !st.conns[s].phase.Ready?
    ensures var j := st.conns[s].inst;
            && Enabled(st, Drop(s)) && Stranded(Apply(st, Drop(s)), s, j)
            && (At(st, s, Checked) ==> Enabled(st, FailRange(s)) && Stranded(Apply(st, FailRange(s)), s, j))
            && (st.conns[s].phase.Joining? && st.conns[s].phase.ahead == 1 ==>
                  Enabled(st, FailCommand(j)) && Stranded(Apply(st, FailCommand(j)), s, j))
  {
    var j := st.conns[s].inst;
    assert ConnOk(st, s, st.conns[s]);
    StrandedIff(st, Drop(s), s);
    if At(st, s, Checked) {
      StrandedIff(st, FailRange(s), s);
    }
    if st.conns[s].phase.Joining? && st.conns[s].phase.ahead == 1 {
      StrandedIff(st, FailCommand(j), s);
    }
  }

  /** Rooms of other documents can change at any time: this adds at most a command for theirs to the instance's queue. */
  lemma OthersQueueToo(st: Net, j: Inst, e: RoomEvent<Sock>)
    requires Inv(st) && j in st.insts && !e.Executes? && e.doc != st.doc
    ensures Enabled(st, OtherRoom(j, e))
    ensures var next := Apply(st, OtherRoom(j, e));
            && next == st.(insts := st.insts[j := next.insts[j]]) && RoomOf(next, j) == RoomOf(st, j)
            && next.insts[j].channels == st.insts[j].channels && st.insts[j].queue <= next.insts[j].queue
            && (forall c :: c in next.insts[j].queue[|st.insts[j].queue|..] ==> c.doc == e.doc)
  {
  }
}
