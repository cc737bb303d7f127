/** What a client loses when its connection ends in the middle of everything: apps/web/src/lib/ws.ts over apps/ws/src/server.ts. */
module Disconnects {
  import opened Wrappers
  import opened Streams
  import opened Replay
  import opened Rooms
  import opened Delivery
  import Sessions

  // ------------------------------------------------------------ the frames in order

  /** The frame by which entry `n` is sent live. */
  function LiveFrame(st: Net, n: nat): Frame
    requires n < |st.log|
  {
    var e := st.log[n].entry;
    var m := FieldsMap(e.fields);
    var userId := Get(m, "userId", "0");
    if Get(m, "kind", "") == "ops" then OpsFrame(Get(m, "ops", "[]"), userId, e.id)
    else CrdtFrame(Get(m, "blockId", ""), Get(m, "delta", ""), userId, e.id)
  }

  predicate Exist(st: Net, l: seq<nat>) {
    forall i :: 0 <= i < |l| ==> l[i] < |st.log|
  }

  function LiveFrames(st: Net, l: seq<nat>): (fs: seq<Frame>)
    requires Exist(st, l)
    ensures |fs| == |l|
  {
    seq(|l|, i requires 0 <= i < |l| => LiveFrame(st, l[i]))
  }

  predicate HasReplay(c: Conn) {
    c.phase.Ready? && c.range.Some?
  }

  ghost predicate ConnFits(st: Net, c: Conn) {
    ConnWired(st, c) && Exist(st, c.live) && c.early <= |c.live|
  }

  function Retained(st: Net, c: Conn): seq<Entry>
    requires c.range.Some? && c.range.value.kept <= c.range.value.seen <= |st.log|
  {
    Entries(st.log)[c.range.value.kept..c.range.value.seen]
  }

  /** Everything the socket was sent, in order: live frames, and in between the replay once it has come. */
  ghost function Got(st: Net, c: Conn): seq<Frame>
    requires ConnFits(st, c)
  {
    if HasReplay(c) then
      LiveFrames(st, c.live[..c.early]) + Sessions.Sent(Retained(st, c), c.cursor.value, st.parses) + LiveFrames(st, c.live[c.early..])
    else LiveFrames(st, c.live)
  }

  /** If the connection ends now, the client will not get entry `n`, which somebody else appended, even after it reconnects. */
  ghost predicate Loses(st: Net, s: Sock, n: nat)
    requires s in st.conns && ConnFits(st, st.conns[s]) && st.conns[s].cursor.Some? && n < |st.log|
  {
    var c := st.conns[s];
    !SentBy(st, n, s) && Sessions.Lost(Entries(st.log), c.cursor.value, Got(st, c), st.log[n].entry, st.parses)
  }

  // --------------------------------------------------------------------- membership

  lemma LiveFrameIsFrame(st: Net, n: nat)
    requires n < |st.log|
    ensures CarriesEntry(LiveFrame(st, n)) && LiveFrame(st, n).streamId == st.log[n].entry.id
    ensures FrameOf(st.log[n].entry, st.parses).Some? ==> FrameOf(st.log[n].entry, st.parses).value == LiveFrame(st, n)
  {
  }

  lemma SameIdSameEntry(st: Net, m: nat, n: nat)
    requires LogIncreases(st.log) && m < |st.log| && n < |st.log|
    ensures st.log[m].entry.id == st.log[n].entry.id <==> m == n
    ensures AtMost(st.log[m].entry.id, st.log[n].entry.id) <==> m <= n
  {
    if m < n {
      assert Streams.Precedes(st.log[m].entry.id, st.log[n].entry.id);
    } else if n < m {
      assert Streams.Precedes(st.log[n].entry.id, st.log[m].entry.id);
    }
  }

  /** The frame of entry `n` is among live frames exactly if it was sent live. */
  lemma InLiveFrames(st: Net, l: seq<nat>, n: nat)
    requires LogIncreases(st.log) && Exist(st, l) && n < |st.log|
    ensures LiveFrame(st, n) in LiveFrames(st, l) <==> n in l
  {
    var fs := LiveFrames(st, l);
    if i :| 0 <= i < |fs| && fs[i] == LiveFrame(st, n) {
      LiveFrameIsFrame(st, n);
      LiveFrameIsFrame(st, l[i]);
      SameIdSameEntry(st, l[i], n);
    }
    if i :| 0 <= i < |l| && l[i] == n {
      assert fs[i] == LiveFrame(st, n);
    }
  }

  lemma InReplay(st: Net, c: Conn, n: nat)
    requires LogIncreases(st.log) && ConnFits(st, c) && HasReplay(c) && ReplayedExactly(st, c)
    requires n < |st.log| && FrameOf(st.log[n].entry, st.parses).Some?
    ensures LiveFrame(st, n) in Sessions.Sent(Retained(st, c), c.cursor.value, st.parses) <==> n in c.replayed
  {
    var f := LiveFrame(st, n);
    LiveFrameIsFrame(st, n);
    ReplayedFrames(st, c, f);
    if m :| m in c.replayed && m < |st.log| && FrameOf(st.log[m].entry, st.parses) == Some(f) {
      LiveFrameIsFrame(st, m);
      SameIdSameEntry(st, m, n);
    }
  }

  lemma SplitLive(live: seq<nat>, k: nat, n: nat)
    requires k <= |live|
    ensures n in live <==> n in live[..k] || n in live[k..]
  {
    assert live == live[..k] + live[k..];
  }

  /** The frames got are those sent live and those replayed. */
  lemma GotIff(st: Net, c: Conn, n: nat)
    requires LogIncreases(st.log) && ConnFits(st, c) && (HasReplay(c) ==> ReplayedExactly(st, c))
    requires n < |st.log| && FrameOf(st.log[n].entry, st.parses).Some?
    ensures FrameOf(st.log[n].entry, st.parses).value in Got(st, c) <==> n in c.live || (HasReplay(c) && n in c.replayed)
  {
    LiveFrameIsFrame(st, n);
    if HasReplay(c) {
      InLiveFrames(st, c.live[..c.early], n);
      InLiveFrames(st, c.live[c.early..], n);
      InReplay(st, c, n);
      SplitLive(c.live, c.early, n);
    } else {
      InLiveFrames(st, c.live, n);
    }
  }

  // ------------------------------------------------------------------------ the loss

  lemma EntriesIncrease(log: seq<Item>)
    requires LogIncreases(log)
    ensures Increasing(Entries(log))
  {
  }

  lemma LosesIff(st: Net, s: Sock, n: nat)
    requires LogIncreases(st.log) && s in st.conns && ConnFits(st, st.conns[s]) && st.conns[s].cursor.Some?
    requires HasReplay(st.conns[s]) ==> ReplayedExactly(st, st.conns[s])
    requires n < |st.log| && Wanted(st, n, st.conns[s].cursor.value) && !SentBy(st, n, s)
    ensures var c := st.conns[s];
            Loses(st, s, n) <==>
              && n !in c.live && !(HasReplay(c) && n in c.replayed)
              && Sessions.CursorCovers(c.cursor.value, Got(st, c), st.log[n].entry.id)
  {
    var c, log := st.conns[s], Entries(st.log);
    EntriesIncrease(st.log);
    assert log[n] == st.log[n].entry && log[n] in log;
    Sessions.LostIff(log, c.cursor.value, Got(st, c), st.log[n].entry, st.parses);
    GotIff(st, c, n);
  }

  /**
   * Before the replay, and in every reached state: what a disconnect loses is what was not
   * sent live and was overtaken by something that was.
   */
  lemma BeforeReplayIff(start: Net, actions: seq<Action>, st: Net, s: Sock, n: nat)
    requires Reached(start, actions, st) && s in st.conns && !st.conns[s].phase.Ready? && st.conns[s].cursor.Some?
    requires n < |st.log| && Wanted(st, n, st.conns[s].cursor.value) && !SentBy(st, n, s)
    ensures ConnFits(st, st.conns[s])
    ensures var live := st.conns[s].live; Loses(st, s, n) <==> n !in live && live != [] && n < live[|live| - 1]
  {
    ReachedFits(start, actions, st, s);
    EarlyLoss(st, s, n);
  }

  lemma EarlyLoss(st: Net, s: Sock, n: nat)
    requires LogIncreases(st.log) && s in st.conns && ConnFits(st, st.conns[s]) && !st.conns[s].phase.Ready? && st.conns[s].cursor.Some?
    requires n < |st.log| && Wanted(st, n, st.conns[s].cursor.value) && !SentBy(st, n, s)
    ensures var live := st.conns[s].live; Loses(st, s, n) <==> n !in live && live != [] && n < live[|live| - 1]
  {
    LosesIff(st, s, n);
    LiveCursorCovers(st, st.conns[s], n);
  }

  /** Before the replay the cursor is at the last live frame. */
  lemma LiveCursorCovers(st: Net, c: Conn, n: nat)
    requires LogIncreases(st.log) && ConnFits(st, c) && !HasReplay(c) && c.cursor.Some? && n < |st.log| && Wanted(st, n, c.cursor.value)
    ensures Sessions.CursorCovers(c.cursor.value, Got(st, c), st.log[n].entry.id) <==>
              c.live != [] && n <= c.live[|c.live| - 1]
  {
    var got := Got(st, c);
    if c.live == [] {
      Sessions.NotBelowItself(c.cursor.value, st.log[n].entry.id);
    } else {
      var last := c.live[|c.live| - 1];
      assert got[|got| - 1] == LiveFrame(st, last);
      LiveFrameIsFrame(st, last);
      SameIdSameEntry(st, n, last);
    }
  }

  lemma ReachedFits(start: Net, actions: seq<Action>, st: Net, s: Sock)
    requires Reached(start, actions, st) && s in st.conns
    ensures Inv(st) && ConnFits(st, st.conns[s]) && LogIncreases(st.log)
    ensures HasReplay(st.conns[s]) ==> ReplayedExactly(st, st.conns[s])
  {
    ReachedIsOk(start, actions, st);
    assert ConnOk(st, s, st.conns[s]);
    assert forall i :: 0 <= i < |st.conns[s].live| ==> st.conns[s].live[i] in st.conns[s].live;
  }

  lemma SliceIncreases(log: seq<Entry>, lo: nat, hi: nat)
    requires Increasing(log) && lo <= hi <= |log|
    ensures Increasing(log[lo..hi])
  {
  }

  lemma MovedCursor(log: seq<Entry>, since: StreamId, id: StreamId, parses: string -> bool) returns (i: nat)
    requires Increasing(log) && Streams.Precedes(since, id) && AtMost(id, CursorAfter(Above(log, since), since))
    ensures i < |log| && log[i].id == CursorAfter(Above(log, since), since)
  {
    NothingBehindCursor(log, since, parses);
    Sessions.NotBelowItself(since, id);
    i :| 0 <= i < |log| && log[i].id == CursorAfter(Above(log, since), since);
  }

  /** A cursor that has moved is the id of a retained entry. */
  lemma CursorIsOfEntry(st: Net, c: Conn, n: nat) returns (m: nat)
    requires LogIncreases(st.log) && ConnFits(st, c) && c.range.Some?
    requires n < |st.log| && Wanted(st, n, c.cursor.value)
    requires AtMost(st.log[n].entry.id, CursorAfter(Above(Retained(st, c), c.cursor.value), c.cursor.value))
    ensures c.range.value.kept <= m < c.range.value.seen
    ensures st.log[m].entry.id == CursorAfter(Above(Retained(st, c), c.cursor.value), c.cursor.value)
  {
    EntriesIncrease(st.log);
    SliceIncreases(Entries(st.log), c.range.value.kept, c.range.value.seen);
    var i := MovedCursor(Retained(st, c), c.cursor.value, st.log[n].entry.id, st.parses);
    m := c.range.value.kept + i;
  }

  /** After a replay with nothing live behind it, what lies at or below the cursor and was retained has been replayed. */
  lemma ReplayCursorCovers(st: Net, c: Conn, n: nat)
    requires LogIncreases(st.log) && ConnFits(st, c) && HasReplay(c) && ReplayedExactly(st, c)
    requires n < |st.log| && Wanted(st, n, c.cursor.value) && c.range.value.kept <= n
    requires AtMost(st.log[n].entry.id, CursorAfter(Above(Retained(st, c), c.cursor.value), c.cursor.value))
    ensures n in c.replayed
  {
    var m := CursorIsOfEntry(st, c, n);
    SameIdSameEntry(st, n, m);
  }

  lemma CursorAfterReplay(st: Net, c: Conn)
    requires ConnFits(st, c) && HasReplay(c)
    ensures Sessions.Cursor(c.cursor.value, Got(st, c)) ==
              if |c.live| > c.early then Some(st.log[c.live[|c.live| - 1]].entry.id)
              else Some(CursorAfter(Above(Retained(st, c), c.cursor.value), c.cursor.value))
  {
    var got, sent, since := Got(st, c), Sessions.Sent(Retained(st, c), c.cursor.value, st.parses), c.cursor.value;
    var late := c.live[c.early..];
    if late != [] {
      var last := c.live[|c.live| - 1];
      LiveFrameIsFrame(st, last);
      assert late[|late| - 1] == last;
      assert got[|got| - 1] == LiveFrames(st, late)[|late| - 1] == LiveFrame(st, last);
    } else {
      assert LiveFrames(st, late) == [];
      assert got[|got| - 1] == sent[|sent| - 1] == ReplayDone(CursorAfter(Above(Retained(st, c), since), since));
    }
  }

  /**
   * After the replay, and in every reached state: of what XRANGE found retained, a
   * disconnect loses what was neither replayed nor sent live and was overtaken by
   * something sent live behind the replay.  What comes before the replay does no harm.
   */
  lemma AfterReplayIff(start: Net, actions: seq<Action>, st: Net, s: Sock, n: nat)
    requires Reached(start, actions, st) && s in st.conns && HasReplay(st.conns[s])
    requires n < |st.log| && st.conns[s].cursor.Some? && Wanted(st, n, st.conns[s].cursor.value) && !SentBy(st, n, s)
    requires st.conns[s].range.value.kept <= n
    ensures ConnFits(st, st.conns[s])
    ensures var c := st.conns[s];
            Loses(st, s, n) <==>
              n !in c.live && n !in c.replayed && |c.live| > c.early && n < c.live[|c.live| - 1]
  {
    ReachedFits(start, actions, st, s);
    var c := st.conns[s];
    LosesIff(st, s, n);
    CursorAfterReplay(st, c);
    if |c.live| > c.early {
      SameIdSameEntry(st, n, c.live[|c.live| - 1]);
    } else if AtMost(st.log[n].entry.id, CursorAfter(Above(Retained(st, c), c.cursor.value), c.cursor.value)) {
      ReplayCursorCovers(st, c, n);
    }
  }

  /** With a settled subscription that is exactly what was not replayed, is still to be broadcast, and was overtaken. */
  lemma SettledReplayIff(start: Net, actions: seq<Action>, st: Net, s: Sock, n: nat)
    requires Reached(start, actions, st) && Replayed(st, s)
    requires n < |st.log| && Wanted(st, n, st.conns[s].cursor.value) && !SentBy(st, n, s)
    requires st.conns[s].range.value.kept <= n
    ensures ConnFits(st, st.conns[s])
    ensures var c := st.conns[s];
            Loses(st, s, n) <==>
              Pending(st, n, c.inst) && n !in c.replayed && |c.live| > c.early && n < c.live[|c.live| - 1]
  {
    AfterReplayIff(start, actions, st, s, n);
    NoMissedEntry(start, actions, st, s, n);
    LiveAtMostOnce(start, actions, st, s, n);
  }

  // ---------------------------------------------------------------------- the input

  /** An open socket on a subscribed instance with no bus message waiting. */
  predicate Listens(st: Net, s: Sock) {
    && s in st.conns && st.conns[s].open
    && st.conns[s].inst in st.insts && st.doc in st.insts[st.conns[s].inst].channels
    && st.conns[s].inst in st.inbox && st.inbox[st.conns[s].inst] == []
  }

  /** Entry `n` is the newest, of the api server, and waits to be published. */
  ghost predicate Newest(st: Net, n: nat) {
    Inv(st) && |st.log| == n + 1 && n in st.toPublish && st.log[n].source.FromApi?
  }

  lemma AppendsNewest(st: Net, e: Entry) returns (next: Net)
    requires Inv(st) && FreshId(st.log, e)
    ensures Goes(st, AppendOps(e), next) && Newest(next, |st.log|)
    ensures next.log[..|st.log|] == st.log && next.parses == st.parses && next.doc == st.doc
    ensures next.conns == st.conns && next.inbox == st.inbox && next.insts == st.insts
  {
    next := Apply(st, AppendOps(e));
    AppendOpsStep(st, e);
  }

  lemma PublishesNewest(st: Net, n: nat, j: Inst) returns (next: Net)
    requires Newest(st, n) && j in st.insts && st.doc in st.insts[j].channels && j in st.inbox && st.inbox[j] == []
    ensures Goes(st, Publish(n), next) && Inv(next) && next.log == st.log && next.conns == st.conns && next.parses == st.parses
    ensures j in next.inbox && next.inbox[j] == [n]
  {
    next := Apply(st, Publish(n));
    PublishStep(st, n);
  }

  lemma HandsNewest(st: Net, n: nat, j: Inst, s: Sock) returns (next: Net)
    requires Inv(st) && j in st.inbox && st.inbox[j] == [n] && n < |st.log| && st.log[n].source.FromApi?
    requires s in st.conns && st.conns[s].inst == j && st.conns[s].open
    ensures Goes(st, HandBusMessage(j), next) && next.log == st.log && next.parses == st.parses
    ensures s in next.conns && next.conns[s] == st.conns[s].(live := st.conns[s].live + [n])
  {
    assert ConnOk(st, s, st.conns[s]);
    HandReaches(st, j, s, st.conns[s]);
    next := Apply(st, HandBusMessage(j));
  }

  /** A streamed operation is appended, published and handed to the socket's instance. */
  lemma Overtakes(st: Net, s: Sock, e: Entry) returns (actions: seq<Action>, end: Net)
    requires Inv(st) && Listens(st, s) && FreshId(st.log, e)
    ensures Leads(st, actions, end) && end.parses == st.parses
    ensures |end.log| == |st.log| + 1 && end.log[..|st.log|] == st.log
    ensures s in end.conns && end.conns[s] == st.conns[s].(live := st.conns[s].live + [|st.log|])
  {
    var j, n := st.conns[s].inst, |st.log|;
    var a := AppendsNewest(st, e);
    var b := PublishesNewest(a, n, j);
    end := HandsNewest(b, n, j, s);
    Link(b, HandBusMessage(j), end, [], end);
    Link(a, Publish(n), b, [HandBusMessage(j)] + [], end);
    Link(st, AppendOps(e), a, [Publish(n)] + ([HandBusMessage(j)] + []), end);
    actions := [AppendOps(e)] + ([Publish(n)] + ([HandBusMessage(j)] + []));
  }

  lemma OvertakingRun(start: Net, actions: seq<Action>, st: Net, s: Sock, e: Entry) returns (all: seq<Action>, end: Net)
    requires Reached(start, actions, st) && Listens(st, s) && FreshId(st.log, e)
    ensures Reached(start, all, end) && end.parses == st.parses
    ensures |end.log| == |st.log| + 1 && end.log[..|st.log|] == st.log
    ensures s in end.conns && end.conns[s] == st.conns[s].(live := st.conns[s].live + [|st.log|])
  {
    ReachedIsOk(start, actions, st);
    var more;
    more, end := Overtakes(st, s, e);
    all := actions + more;
    LeadsConcat(start, actions, st, more, end);
  }

  lemma StillWanted(st: Net, end: Net, n: nat, c: StreamId, s: Sock)
    requires n < |st.log| < |end.log| && end.log[..|st.log|] == st.log && end.parses == st.parses
    ensures end.log[n] == st.log[n] && (Wanted(end, n, c) <==> Wanted(st, n, c)) && (SentBy(end, n, s) <==> SentBy(st, n, s))
  {
    assert end.log[..|st.log|][n] == end.log[n];
  }

  /** The socket is yet to be replayed from its cursor. */
  predicate Awaits(st: Net, s: Sock) {
    Listens(st, s) && !st.conns[s].phase.Ready? && st.conns[s].cursor.Some?
  }

  /** From any reached state with a socket awaiting its replay, a run leads to the loss of any entry it has not been sent. */
  lemma OvertakenIsLost(start: Net, actions: seq<Action>, st: Net, s: Sock, n: nat, e: Entry) returns (all: seq<Action>, end: Net)
    requires Reached(start, actions, st) && Awaits(st, s) && FreshId(st.log, e)
    requires n < |st.log| && Wanted(st, n, st.conns[s].cursor.value) && !SentBy(st, n, s) && n !in st.conns[s].live
    ensures Reached(start, all, end) && s in end.conns && end.conns[s].open
    ensures ConnFits(end, end.conns[s]) && end.conns[s].cursor.Some? && n < |end.log| && end.log[n] == st.log[n] && Loses(end, s, n)
  {
    all, end := OvertakingRun(start, actions, st, s, e);
    StillWanted(st, end, n, st.conns[s].cursor.value, s);
    BeforeReplayIff(start, all, end, s, n);
  }

  /** Behind the replay a run leads to the loss of any entry that was retained and neither replayed nor sent live yet. */
  lemma OvertakenBehindReplay(start: Net, actions: seq<Action>, st: Net, s: Sock, n: nat, e: Entry) returns (all: seq<Action>, end: Net)
    requires Reached(start, actions, st) && Listens(st, s) && HasReplay(st.conns[s]) && st.conns[s].cursor.Some? && FreshId(st.log, e)
    requires n < |st.log| && Wanted(st, n, st.conns[s].cursor.value) && !SentBy(st, n, s)
    requires n !in st.conns[s].live && n !in st.conns[s].replayed && st.conns[s].range.value.kept <= n
    ensures Reached(start, all, end) && s in end.conns && end.conns[s].open
    ensures ConnFits(end, end.conns[s]) && end.conns[s].cursor.Some? && n < |end.log| && end.log[n] == st.log[n] && Loses(end, s, n)
  {
    ReachedFits(start, actions, st, s);
    all, end := OvertakingRun(start, actions, st, s, e);
    StillWanted(st, end, n, st.conns[s].cursor.value, s);
    AfterReplayIff(start, all, end, s, n);
  }

  /** One instance, with the given rooms and connections, and no bus message waiting. */
  ghost predicate OneInstance(st: Net, r: Registry<Sock>, conns: map<Sock, Conn>) {
    Inv(st) && st.insts == map[0 := r] && st.inbox == map[0 := []] && st.conns == conns
  }

  lemma PublishesToNobody(st: Net) returns (next: Net)
    requires OneInstance(st, IDLE, map[]) && 0 in st.toPublish
    ensures Goes(st, Publish(0), next) && OneInstance(next, IDLE, map[]) && next.log == st.log && next.parses == st.parses && next.doc == st.doc
  {
    next := Apply(st, Publish(0));
    PublishStep(st, 0);
  }

  lemma JoinsIdle(st: Net, s: Sock, cursor: Option<StreamId>) returns (next: Net)
    requires OneInstance(st, IDLE, map[])
    ensures Goes(st, Connect(s, 0, cursor), next) && next.log == st.log && next.parses == st.parses && next.doc == st.doc
    ensures OneInstance(next, Room(st.doc, {s}, [Subscribe(st.doc)], {}), map[s := Conn(0, cursor, Joining(1), true, true, None, [], {}, 0)])
  {
    next := Apply(st, Connect(s, 0, cursor));
    ConnectStep(st, s, 0, cursor);
    FirstJoin(IDLE, st.doc, s);
    assert IDLE.queue + [Subscribe(st.doc)] == [Subscribe(st.doc)];
    assert RoomOf(st, 0) == {};
  }

  lemma ExecutesFirst(st: Net) returns (next: Net)
    requires Inv(st) && Enabled(st, ExecuteCommand(0))
    ensures Goes(st, ExecuteCommand(0), next) && Inv(next)
    ensures next == st.(insts := st.insts[0 := ExecuteStep(st.insts[0])], conns := map x | x in st.conns :: Advance(st.conns[x], 0))
  {
    next := Apply(st, ExecuteCommand(0));
    ExecuteCommandStep(st, 0);
  }

  lemma FirstAdvances(s: Sock, c: Conn)
    requires c.inst == 0 && c.phase == Joining(1)
    ensures (map x | x in map[s := c] :: Advance(map[s := c][x], 0)) == map[s := c.(phase := Joined)]
  {
  }

  lemma SubscribesFirst(st: Net, s: Sock, c: Conn) returns (next: Net)
    requires OneInstance(st, Room(st.doc, {s}, [Subscribe(st.doc)], {}), map[s := c]) && c.inst == 0 && c.phase == Joining(1)
    ensures Goes(st, ExecuteCommand(0), next) && next.log == st.log && next.parses == st.parses && next.doc == st.doc
    ensures OneInstance(next, Room(st.doc, {s}, [], {st.doc}), map[s := c.(phase := Joined)])
  {
    next := ExecutesFirst(st);
    AfterFirst(st, next, s, c);
  }

  lemma AfterFirst(st: Net, next: Net, s: Sock, c: Conn)
    requires st.insts == map[0 := Room(st.doc, {s}, [Subscribe(st.doc)], {})] && st.conns == map[s := c]
    requires c.inst == 0 && c.phase == Joining(1)
    requires next.insts == st.insts[0 := ExecuteStep(st.insts[0])] && next.conns == map x | x in st.conns :: Advance(st.conns[x], 0)
    ensures next.insts == map[0 := Room(st.doc, {s}, [], {st.doc})] && next.conns == map[s := c.(phase := Joined)]
  {
    FirstAdvances(s, c);
    FirstExecutes(st.doc, s);
  }

  lemma FirstExecutes(doc: nat, s: Sock)
    ensures ExecuteStep(Room(doc, {s}, [Subscribe(doc)], {})) == Room(doc, {s}, [], {doc})
  {
  }

  /** One entry, and then a socket that asks for everything joins and is subscribed. */
  lemma ReachesAwaits(doc: nat, parses: string -> bool, e: Entry) returns (start: Net, actions: seq<Action>, end: Net)
    requires FrameOf(e, parses).Some? && Streams.Precedes(ZERO, e.id)
    ensures Reached(start, actions, end) && Awaits(end, 10) && end.parses == parses
    ensures |end.log| == 1 && end.log[0].entry == e && Wanted(end, 0, end.conns[10].cursor.value)
    ensures !SentBy(end, 0, 10) && end.conns[10].live == []
  {
    start := Shot(doc, parses, IDLE, map[]);
    InitialIsOk(start);
    var a := AppendsNewest(start, e);
    assert a == Apply(start, AppendOps(e));
    var b := PublishesToNobody(a);
    var c := JoinsIdle(b, 10, Some(ZERO));
    end := SubscribesFirst(c, 10, Conn(0, Some(ZERO), Joining(1), true, true, None, [], {}, 0));
    Link(c, ExecuteCommand(0), end, [], end);
    Link(b, Connect(10, 0, Some(ZERO)), c, [ExecuteCommand(0)] + [], end);
    Link(a, Publish(0), b, [Connect(10, 0, Some(ZERO))] + ([ExecuteCommand(0)] + []), end);
    Link(start, AppendOps(e), a, [Publish(0)] + ([Connect(10, 0, Some(ZERO))] + ([ExecuteCommand(0)] + [])), end);
    actions := [AppendOps(e)] + ([Publish(0)] + ([Connect(10, 0, Some(ZERO))] + ([ExecuteCommand(0)] + [])));
  }

  /** Such a run from an idle instance: the first of two entries is lost. */
  lemma LossIsReached(doc: nat, parses: string -> bool) returns (start: Net, actions: seq<Action>, end: Net)
    ensures Reached(start, actions, end) && 10 in end.conns && end.conns[10].open
    ensures ConnFits(end, end.conns[10]) && end.conns[10].cursor.Some? && 0 < |end.log| && Loses(end, 10, 0)
  {
    var e := NextDelta([], parses, ZERO);
    var before, mid;
    start, before, mid := ReachesAwaits(doc, parses, e);
    var later := NextDelta(mid.log, parses, ZERO);
    actions, end := OvertakenIsLost(start, before, mid, 10, 0, later);
  }
}
