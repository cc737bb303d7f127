/** Consumers of one document's stream that read new entries only, interleaved with everything else: apps/api/app/consumer/worker.py. */
module Consumers {
  import opened Streams
  import opened ConsumerGroups
  import opened Worker

  type Consumer = nat

  /** The slice of the log a consumer has read, from the entry it handles next. */
  datatype Slice = Slice(next: nat, end: nat)

  /** The stream of a document: its log, how much of it was handed out, and what each consumer has yet to handle. */
  datatype Group = Group(log: seq<Entry>, delivered: nat, inHand: map<Consumer, Slice>)

  /**
   * An entry is appended; a consumer with nothing in hand reads up to `count` new entries;
   * it handles the next one, and may die between commit and ack; it dies before; or the
   * REST route acts on a row.  A move that cannot be made changes nothing.
   */
  datatype Move =
    | Appends(e: Entry)
    | Reads(c: Consumer, count: nat)
    | HandlesNext(c: Consumer, dies: bool)
    | Dies(c: Consumer)
    | Rest(ev: Event)

  // -------------------------------------------------------------------------- steps

  function InHand(g: Group, c: Consumer): Slice {
    if c in g.inHand then g.inHand[c] else Slice(0, 0)
  }

  predicate Busy(g: Group, c: Consumer) {
    InHand(g, c).next < InHand(g, c).end
  }

  function ReadEnd(g: Group, count: nat): nat {
    if g.delivered + count < |g.log| then g.delivered + count else |g.log|
  }

  predicate CanAppend(log: seq<Entry>, e: Entry) {
    log == [] || Precedes(log[|log| - 1].id, e.id)
  }

  function Drop(s: Slice): Slice {
    Slice(s.end, s.end)
  }

  function AfterMove(g: Group, m: Move): Group {
    match m
    case Appends(e) => if CanAppend(g.log, e) then g.(log := g.log + [e]) else g
    case Reads(c, count) =>
      if Busy(g, c) then g
      else g.(delivered := ReadEnd(g, count), inHand := g.inHand[c := Slice(g.delivered, ReadEnd(g, count))])
    case HandlesNext(c, dies) =>
      var s := InHand(g, c);
      if !Busy(g, c) then g else g.(inHand := g.inHand[c := if dies then Drop(s) else s.(next := s.next + 1)])
    case Dies(c) => g.(inHand := g.inHand[c := Drop(InHand(g, c))])
    case Rest(_) => g
  }

  /** The move handles entry `n`. */
  predicate IsHandling(g: Group, m: Move, n: nat) {
    m.HandlesNext? && Busy(g, m.c) && InHand(g, m.c).next == n
  }

  /** What the move does to the rows of document `doc`. */
  function EventsOf(g: Group, m: Move, doc: nat): seq<Event> {
    if m.HandlesNext? && Busy(g, m.c) && InHand(g, m.c).next < |g.log| then [Handles(doc, g.log[InHand(g, m.c).next], m.dies)]
    else if m.Rest? && !m.ev.Handles? then [m.ev]
    else []
  }

  const START := Group([], 0, map[])

  function GroupAfter(moves: seq<Move>): Group {
    if moves == [] then START else AfterMove(GroupAfter(moves[..|moves| - 1]), moves[|moves| - 1])
  }

  function EventsAfter(moves: seq<Move>, doc: nat): seq<Event> {
    if moves == [] then []
    else
      var before := moves[..|moves| - 1];
      EventsAfter(before, doc) + EventsOf(GroupAfter(before), moves[|moves| - 1], doc)
  }

  /** The rows after the moves. */
  function RowsAfter(moves: seq<Move>, doc: nat, lib: Library): map<Key, Row> {
    Run(EventsAfter(moves, doc), lib).rows
  }

  // ---------------------------------------------------------------------- invariant

  predicate Apart(s: Slice, t: Slice) {
    s.next == s.end || t.next == t.end || s.end <= t.next || t.end <= s.next
  }

  /** Slices are handed out parts of the log, and no two consumers hold the same entry. */
  ghost predicate GroupOk(g: Group) {
    && g.delivered <= |g.log| && Increasing(g.log)
    && (forall c :: InHand(g, c).next <= InHand(g, c).end <= g.delivered)
    && (forall c, d :: c != d ==> Apart(InHand(g, c), InHand(g, d)))
  }

  lemma OneSliceChanges(g: Group, g': Group, c: Consumer, s: Slice)
    requires GroupOk(g) && g'.log == g.log && g.delivered <= g'.delivered <= |g.log| && g'.inHand == g.inHand[c := s]
    requires s.next <= s.end <= g'.delivered
    requires (InHand(g, c).next <= s.next && s.end == InHand(g, c).end) || s.next >= g.delivered
    ensures GroupOk(g')
  {
    assert forall d :: InHand(g', d) == if d == c then s else InHand(g, d);
  }

  lemma MoveKeepsGroup(g: Group, m: Move)
    requires GroupOk(g)
    ensures GroupOk(AfterMove(g, m))
  {
    match m
    case Appends(e) =>
      if CanAppend(g.log, e) {
        AppendIncreases(g.log, e);
        assert forall c :: InHand(AfterMove(g, m), c) == InHand(g, c);
      }
    case Reads(c, count) =>
      if !Busy(g, c) {
        OneSliceChanges(g, AfterMove(g, m), c, InHand(AfterMove(g, m), c));
      }
    case HandlesNext(c, dies) =>
      if Busy(g, c) {
        OneSliceChanges(g, AfterMove(g, m), c, InHand(AfterMove(g, m), c));
      }
    case Dies(c) => OneSliceChanges(g, AfterMove(g, m), c, InHand(AfterMove(g, m), c));
    case Rest(_) =>
  }

  lemma AppendIncreases(log: seq<Entry>, e: Entry)
    requires Increasing(log) && CanAppend(log, e)
    ensures Increasing(log + [e])
  {
    if log != [] {
      var last := log[|log| - 1].id;
      assert forall i :: 0 <= i < |log| ==> AtMost(log[i].id, last);
    }
  }

  lemma {:induction false} RunKeepsGroup(moves: seq<Move>)
    ensures GroupOk(GroupAfter(moves))
  {
    if moves != [] {
      RunKeepsGroup(moves[..|moves| - 1]);
      MoveKeepsGroup(GroupAfter(moves[..|moves| - 1]), moves[|moves| - 1]);
    }
  }

  // ---------------------------------------------------------------- single delivery

  /** Entry `n` was handed out and is in nobody's hands: it was handled, or lost with its consumer. */
  ghost predicate Gone(g: Group, n: nat) {
    n < g.delivered && forall c :: !(InHand(g, c).next <= n < InHand(g, c).end)
  }

  lemma GoneStays(g: Group, m: Move, n: nat)
    requires GroupOk(g) && Gone(g, n)
    ensures Gone(AfterMove(g, m), n) && !IsHandling(g, m, n)
  {
    var g' := AfterMove(g, m);
    assert g'.delivered >= g.delivered;
    forall c
      ensures !(InHand(g', c).next <= n < InHand(g', c).end)
    {
      assert !(InHand(g, c).next <= n < InHand(g, c).end);
    }
  }

  lemma HandledIsGone(g: Group, m: Move, n: nat)
    requires GroupOk(g) && IsHandling(g, m, n)
    ensures n < |g.log| && Gone(AfterMove(g, m), n)
  {
    var g' := AfterMove(g, m);
    forall c
      ensures !(InHand(g', c).next <= n < InHand(g', c).end)
    {
      if c != m.c {
        assert InHand(g', c) == InHand(g, c);
        assert Apart(InHand(g, c), InHand(g, m.c));
      }
    }
  }

  predicate HandlesAt(moves: seq<Move>, k: nat, n: nat) {
    k < |moves| && IsHandling(GroupAfter(moves[..k]), moves[k], n)
  }

  lemma GroupNext(moves: seq<Move>, k: nat)
    requires k < |moves|
    ensures GroupAfter(moves[..k + 1]) == AfterMove(GroupAfter(moves[..k]), moves[k])
  {
    assert moves[..k + 1][..k] == moves[..k];
  }

  lemma {:induction false} GoneFrom(moves: seq<Move>, j: nat, k: nat, n: nat)
    requires j <= k <= |moves| && Gone(GroupAfter(moves[..j]), n)
    ensures Gone(GroupAfter(moves[..k]), n)
    decreases k
  {
    if j < k {
      GoneFrom(moves, j, k - 1, n);
      GoneNext(moves, k - 1, n);
    }
  }

  lemma GoneNext(moves: seq<Move>, k: nat, n: nat)
    requires k < |moves| && Gone(GroupAfter(moves[..k]), n)
    ensures Gone(GroupAfter(moves[..k + 1]), n) && !HandlesAt(moves, k, n)
  {
    RunKeepsGroup(moves[..k]);
    GoneStays(GroupAfter(moves[..k]), moves[k], n);
    GroupNext(moves, k);
  }

  /** Under `>`, no entry is delivered twice: it is handled by one consumer, once. */
  lemma HandledOnce(moves: seq<Move>, j: nat, k: nat, n: nat)
    requires HandlesAt(moves, j, n) && HandlesAt(moves, k, n)
    ensures j == k
  {
    if j < k {
      HandledBefore(moves, j, k, n);
    } else if k < j {
      HandledBefore(moves, k, j, n);
    }
  }

  lemma HandledBefore(moves: seq<Move>, j: nat, k: nat, n: nat)
    requires j < k < |moves| && HandlesAt(moves, j, n)
    ensures !HandlesAt(moves, k, n)
  {
    RunKeepsGroup(moves[..j]);
    HandledIsGone(GroupAfter(moves[..j]), moves[j], n);
    GroupNext(moves, j);
    GoneFrom(moves, j + 1, k, n);
    GoneNext(moves, k, n);
  }

  lemma {:induction false} LogGrows(moves: seq<Move>, k: nat)
    requires k <= |moves|
    ensures GroupAfter(moves[..k]).log <= GroupAfter(moves).log
    decreases |moves| - k
  {
    if k == |moves| {
      assert moves[..k] == moves;
    } else {
      LogGrows(moves, k + 1);
      GroupNext(moves, k);
    }
  }

  lemma EventsNext(moves: seq<Move>, k: nat, doc: nat)
    requires k < |moves|
    ensures EventsAfter(moves[..k + 1], doc) == EventsAfter(moves[..k], doc) + EventsOf(GroupAfter(moves[..k]), moves[k], doc)
  {
    assert moves[..k + 1][..k] == moves[..k];
  }

  lemma HandlingIsEvent(moves: seq<Move>, k: nat, n: nat, doc: nat)
    requires HandlesAt(moves, k, n)
    ensures n < |GroupAfter(moves).log|
    ensures EventsAfter(moves[..k + 1], doc) == EventsAfter(moves[..k], doc) + [Handles(doc, GroupAfter(moves).log[n], moves[k].dies)]
  {
    RunKeepsGroup(moves[..k]);
    HandledIsGone(GroupAfter(moves[..k]), moves[k], n);
    LogGrows(moves, k);
    EventsNext(moves, k, doc);
  }

  /** Handling an entry changes the rows exactly if it is a delta that takes effect. */
  lemma HandlingChangesIff(moves: seq<Move>, k: nat, n: nat, doc: nat, lib: Library)
    requires HandlesAt(moves, k, n)
    ensures n < |GroupAfter(moves).log|
    ensures RowsAfter(moves[..k + 1], doc, lib) != RowsAfter(moves[..k], doc, lib) <==>
              TakesEffect(RowsAfter(moves[..k], doc, lib), doc, GroupAfter(moves).log[n], lib)
  {
    HandlingIsEvent(moves, k, n, doc);
    var before, ev := EventsAfter(moves[..k], doc), Handles(doc, GroupAfter(moves).log[n], moves[k].dies);
    assert (before + [ev])[..|before|] == before;
    HandledChangesIff(Run(before, lib).rows, doc, ev.e, lib);
  }

  lemma HandledChangesIff(rows: map<Key, Row>, doc: nat, e: Entry, lib: Library)
    ensures var after := Handled(rows, doc, e, lib); (after.Some? && after.value != rows) <==> TakesEffect(rows, doc, e, lib)
  {
    if TakesEffect(rows, doc, e, lib) {
      assert Handled(rows, doc, e, lib).value[Target(doc, e)].watermark != rows[Target(doc, e)].watermark;
    }
  }

  /** In some move of the run, handling entry `n` changed a row. */
  ghost predicate TookEffect(moves: seq<Move>, n: nat, doc: nat, lib: Library) {
    exists k: nat :: HandlesAt(moves, k, n) && RowsAfter(moves[..k + 1], doc, lib) != RowsAfter(moves[..k], doc, lib)
  }

  /**
   * An entry takes effect in a run exactly if, at its single delivery, it is a delta
   * whose row is present, whose id is not covered, and which the library accepts.
   */
  lemma TookEffectIff(moves: seq<Move>, k: nat, n: nat, doc: nat, lib: Library)
    requires HandlesAt(moves, k, n)
    ensures n < |GroupAfter(moves).log|
    ensures TookEffect(moves, n, doc, lib) <==>
              TakesEffect(RowsAfter(moves[..k], doc, lib), doc, GroupAfter(moves).log[n], lib)
  {
    HandlingChangesIff(moves, k, n, doc, lib);
    if j: nat :| HandlesAt(moves, j, n) && RowsAfter(moves[..j + 1], doc, lib) != RowsAfter(moves[..j], doc, lib) {
      HandledOnce(moves, j, k, n);
    }
  }

  lemma PrefixHandles(moves: seq<Move>, more: seq<Move>, k: nat, n: nat)
    requires k < |moves|
    ensures HandlesAt(moves + more, k, n) <==> HandlesAt(moves, k, n)
    ensures (moves + more)[..k] == moves[..k] && (moves + more)[..k + 1] == moves[..k + 1]
  {
    assert (moves + more)[..k] == moves[..k] && (moves + more)[..k + 1] == moves[..k + 1];
  }

  lemma GoneIsNotHandled(moves: seq<Move>, more: seq<Move>, k: nat, n: nat)
    requires Gone(GroupAfter(moves), n) && HandlesAt(moves + more, k, n)
    ensures k < |moves|
  {
    var all := moves + more;
    if k >= |moves| {
      assert all[..|moves|] == moves;
      GoneFrom(all, |moves|, k, n);
      GoneNext(all, k, n);
    }
  }

  /** There is no retry: an entry that was handed out, is in nobody's hands and did not take effect never will. */
  lemma NeverRetried(moves: seq<Move>, more: seq<Move>, n: nat, doc: nat, lib: Library)
    requires Gone(GroupAfter(moves), n)
    ensures TookEffect(moves + more, n, doc, lib) <==> TookEffect(moves, n, doc, lib)
  {
    var all := moves + more;
    if k: nat :| HandlesAt(moves, k, n) && RowsAfter(moves[..k + 1], doc, lib) != RowsAfter(moves[..k], doc, lib) {
      PrefixHandles(moves, more, k, n);
      assert HandlesAt(all, k, n);
    }
    if k: nat :| HandlesAt(all, k, n) && RowsAfter(all[..k + 1], doc, lib) != RowsAfter(all[..k], doc, lib) {
      GoneIsNotHandled(moves, more, k, n);
      PrefixHandles(moves, more, k, n);
      assert HandlesAt(moves, k, n);
    }
  }

  // -------------------------------------------------------------------- a lone reader

  /** Only consumer `c` reads, and it does not die. */
  predicate Lone(moves: seq<Move>, c: Consumer) {
    forall i :: 0 <= i < |moves| ==>
      match moves[i]
      case Reads(d, _) => d == c
      case HandlesNext(d, dies) => d == c && !dies
      case Dies(_) => false
      case _ => true
  }

  /** The deltas for the block among the entries. */
  function DeltasOf(log: seq<Entry>, doc: nat, key: Key): seq<Entry> {
    if log == [] then []
    else
      var e := log[|log| - 1];
      DeltasOf(log[..|log| - 1], doc, key) + if IsDelta(e) && Target(doc, e) == key then [e] else []
  }

  lemma DeltasNext(log: seq<Entry>, n: nat, doc: nat, key: Key)
    requires n < |log|
    ensures DeltasOf(log[..n + 1], doc, key) ==
              DeltasOf(log[..n], doc, key) + if IsDelta(log[n]) && Target(doc, log[n]) == key then [log[n]] else []
  {
    assert log[..n + 1][..n] == log[..n];
  }

  lemma {:induction false} DeltasIncrease(log: seq<Entry>, doc: nat, key: Key)
    requires Increasing(log)
    ensures Increasing(DeltasOf(log, doc, key)) && AllDeltas(DeltasOf(log, doc, key))
    ensures forall e :: e in DeltasOf(log, doc, key) ==> e in log
  {
    if log != [] {
      var before := log[..|log| - 1];
      DeltasIncrease(before, doc, key);
      assert forall e :: e in before ==> Precedes(e.id, log[|log| - 1].id);
    }
  }

  lemma HandledForNext(events: seq<Event>, ev: Event, key: Key)
    ensures HandledFor(events + [ev], key) == HandledFor(events, key) + if IsFor(ev, key) then [ev.e] else []
  {
    assert (events + [ev])[..|events|] == events;
  }

  /** How many entries a lone reader has handled. */
  function Done(g: Group, c: Consumer): nat {
    InHand(g, c).next
  }

  /** A lone reader handles the log in order from the start: what it has handled for the block are the block's deltas of that part. */
  lemma {:induction false} LoneHandlesInOrder(moves: seq<Move>, c: Consumer, doc: nat, key: Key)
    requires Lone(moves, c)
    ensures var g := GroupAfter(moves);
            && GroupOk(g) && Done(g, c) <= |g.log| && InHand(g, c).end == g.delivered
            && HandledFor(EventsAfter(moves, doc), key) == DeltasOf(g.log[..Done(g, c)], doc, key)
  {
    RunKeepsGroup(moves);
    if moves != [] {
      var before := moves[..|moves| - 1];
      LoneHandlesInOrder(before, c, doc, key);
      LoneStep(GroupAfter(before), moves[|moves| - 1], EventsAfter(before, doc), c, doc, key);
    }
  }

  /** A move that handles nothing leaves the handled part of the log alone. */
  lemma LoneIdles(g: Group, m: Move, c: Consumer)
    requires GroupOk(g) && InHand(g, c).end == g.delivered && Lone([m], c) && !(m.HandlesNext? && Busy(g, c))
    ensures var g' := AfterMove(g, m);
            && Done(g', c) == Done(g, c) <= |g'.log| && InHand(g', c).end == g'.delivered
            && g'.log[..Done(g, c)] == g.log[..Done(g, c)]
  {
    assert [m][0] == m;
  }

  lemma LoneHandles(g: Group, m: Move, c: Consumer)
    requires GroupOk(g) && InHand(g, c).end == g.delivered && Lone([m], c) && m.HandlesNext? && Busy(g, c)
    ensures var g' := AfterMove(g, m);
            && m.c == c && Done(g, c) < |g.log| && g'.log == g.log
            && Done(g', c) == Done(g, c) + 1 && InHand(g', c).end == g'.delivered
  {
    assert [m][0] == m;
  }

  lemma LoneStep(g: Group, m: Move, events: seq<Event>, c: Consumer, doc: nat, key: Key)
    requires GroupOk(g) && InHand(g, c).end == g.delivered && Done(g, c) <= |g.log| && Lone([m], c)
    requires HandledFor(events, key) == DeltasOf(g.log[..Done(g, c)], doc, key)
    ensures var g' := AfterMove(g, m);
            && Done(g', c) <= |g'.log| && InHand(g', c).end == g'.delivered
            && HandledFor(events + EventsOf(g, m, doc), key) == DeltasOf(g'.log[..Done(g', c)], doc, key)
  {
    assert [m][0] == m;
    var evs := EventsOf(g, m, doc);
    if m.HandlesNext? && Busy(g, c) {
      LoneHandles(g, m, c);
      DeltasNext(g.log, Done(g, c), doc, key);
      HandledForNext(events, evs[0], key);
    } else {
      LoneIdles(g, m, c);
      if evs == [] {
        assert events + evs == events;
      } else {
        HandledForNext(events, evs[0], key);
      }
    }
  }

  /**
   * One reader in stream order: when it has handled the first part of the log, with the
   * row present for every delta of the block, then every delta of that part took effect
   * exactly once and in stream order, provided exactly that the library accepts them in
   * turn; the row's state is their fold and its watermark the last of them.
   */
  lemma LoneReaderAppliesAll(moves: seq<Move>, c: Consumer, doc: nat, key: Key, lib: Library)
    requires Lone(moves, c) && RowPresent(EventsAfter(moves, doc), key)
    ensures var g, events := GroupAfter(moves), EventsAfter(moves, doc);
            && Done(g, c) <= |g.log|
            && var h := DeltasOf(g.log[..Done(g, c)], doc, key);
               && AllDeltas(h) && AllDeltas(Life(events, key))
               && (Effective(Life(events, key), lib) == h <==> Applies(h, lib))
               && (Applies(h, lib) && Alive(events, key) ==>
                     && key in RowsAfter(moves, doc, lib)
                     && RowsAfter(moves, doc, lib)[key].state == StateAfter(h, lib)
                     && RowsAfter(moves, doc, lib)[key].watermark == LastId(h))
  {
    var g, events := GroupAfter(moves), EventsAfter(moves, doc);
    LoneHandlesInOrder(moves, c, doc, key);
    var part := g.log[..Done(g, c)];
    assert Increasing(part);
    DeltasIncrease(part, doc, key);
    AllHandledIff(events, key, lib);
  }

  /** The pass has come to entry `k`: everything before is handled, nothing is in hand. */
  predicate HasPassed(moves: seq<Move>, c: Consumer, k: nat) {
    var g := GroupAfter(moves);
    g.delivered == k && !Busy(g, c)
  }

  /** Passes that cover the first `k` entries have handled exactly these. */
  lemma PassesHandlePrefix(moves: seq<Move>, c: Consumer, doc: nat, key: Key, k: nat)
    requires Lone(moves, c) && HasPassed(moves, c, k)
    ensures k <= |GroupAfter(moves).log| && Done(GroupAfter(moves), c) == k
    ensures HandledFor(EventsAfter(moves, doc), key) == DeltasOf(GroupAfter(moves).log[..k], doc, key)
  {
    LoneHandlesInOrder(moves, c, doc, key);
  }

  // ------------------------------------------------------------------- passes as moves

  function GroupFrom(g: Group, moves: seq<Move>): Group {
    if moves == [] then g else AfterMove(GroupFrom(g, moves[..|moves| - 1]), moves[|moves| - 1])
  }

  function EventsFrom(g: Group, moves: seq<Move>, doc: nat): seq<Event> {
    if moves == [] then []
    else
      var before := moves[..|moves| - 1];
      EventsFrom(g, before, doc) + EventsOf(GroupFrom(g, before), moves[|moves| - 1], doc)
  }

  lemma {:induction false} MovesConcat(moves: seq<Move>, more: seq<Move>, doc: nat)
    ensures GroupAfter(moves + more) == GroupFrom(GroupAfter(moves), more)
    ensures EventsAfter(moves + more, doc) == EventsAfter(moves, doc) + EventsFrom(GroupAfter(moves), more, doc)
  {
    if more == [] {
      assert moves + more == moves;
    } else {
      assert (moves + more)[..|moves + more| - 1] == moves + more[..|more| - 1];
      MovesConcat(moves, more[..|more| - 1], doc);
    }
  }

  lemma DeliveriesNext(log: seq<Entry>, lo: nat, n: nat, doc: nat)
    requires lo + n < |log|
    ensures Deliveries(doc, log[lo..lo + n + 1]) == Deliveries(doc, log[lo..lo + n]) + [Handles(doc, log[lo + n], false)]
  {
    assert log[lo..lo + n + 1][..n] == log[lo..lo + n];
  }

  lemma FromNext(g: Group, moves: seq<Move>, m: Move, all: seq<Move>, doc: nat)
    requires all == moves + [m]
    ensures GroupFrom(g, all) == AfterMove(GroupFrom(g, moves), m)
    ensures EventsFrom(g, all, doc) == EventsFrom(g, moves, doc) + EventsOf(GroupFrom(g, moves), m, doc)
  {
    assert all[..|all| - 1] == moves;
  }

  lemma FromOne(g: Group, m: Move, doc: nat)
    ensures GroupFrom(g, [m]) == AfterMove(g, m) && EventsFrom(g, [m], doc) == EventsOf(g, m, doc)
  {
    assert [m][..0] == [];
  }

  /** `b` is `g` after a read by `c` and the handling of `n` entries of it. */
  predicate MidPass(g: Group, b: Group, c: Consumer, n: nat) {
    && b.log == g.log && b.delivered == ReadEnd(g, READ_COUNT) <= |g.log| && g.delivered + n <= b.delivered
    && InHand(b, c) == Slice(g.delivered + n, b.delivered)
  }

  lemma MidPassStarts(g: Group, c: Consumer)
    requires g.delivered <= |g.log| && !Busy(g, c)
    ensures MidPass(g, AfterMove(g, Reads(c, READ_COUNT)), c, 0)
  {
  }

  lemma MidPassNext(g: Group, b: Group, c: Consumer, doc: nat, n: nat)
    requires MidPass(g, b, c, n) && g.delivered + n < b.delivered
    ensures MidPass(g, AfterMove(b, HandlesNext(c, false)), c, n + 1)
    ensures EventsOf(b, HandlesNext(c, false), doc) == [Handles(doc, g.log[g.delivered + n], false)]
  {
  }

  /** The moves take `g` into a pass of which `n` entries are handled, and deliver just these. */
  ghost predicate Delivers(g: Group, moves: seq<Move>, c: Consumer, doc: nat, n: nat) {
    && g.delivered + n <= |g.log| && MidPass(g, GroupFrom(g, moves), c, n)
    && EventsFrom(g, moves, doc) == Deliveries(doc, g.log[g.delivered..g.delivered + n])
  }

  lemma DeliversOneMore(g: Group, moves: seq<Move>, c: Consumer, doc: nat, n: nat, all: seq<Move>)
    requires Delivers(g, moves, c, doc, n) && g.delivered + n < ReadEnd(g, READ_COUNT) && all == moves + [HandlesNext(c, false)]
    ensures Delivers(g, all, c, doc, n + 1)
  {
    FromNext(g, moves, HandlesNext(c, false), all, doc);
    MidPassNext(g, GroupFrom(g, moves), c, doc, n);
    DeliveriesNext(g.log, g.delivered, n, doc);
  }

  lemma {:induction false} PassDelivers(g: Group, c: Consumer, doc: nat, n: nat) returns (moves: seq<Move>)
    requires g.delivered <= |g.log| && !Busy(g, c) && g.delivered + n <= ReadEnd(g, READ_COUNT)
    ensures Delivers(g, moves, c, doc, n) && Lone(moves, c)
  {
    if n == 0 {
      moves := [Reads(c, READ_COUNT)];
      FromOne(g, Reads(c, READ_COUNT), doc);
      MidPassStarts(g, c);
    } else {
      var before := PassDelivers(g, c, doc, n - 1);
      moves := before + [HandlesNext(c, false)];
      DeliversOneMore(g, before, c, doc, n - 1, moves);
    }
  }

  /** A pass over the stream, as ReadOnce makes it, is a read followed by handling all that was read. */
  lemma PassIsMoves(moves: seq<Move>, c: Consumer, doc: nat) returns (pass: seq<Move>)
    requires !Busy(GroupAfter(moves), c)
    ensures Lone(pass, c)
    ensures var g := GroupAfter(moves);
            && g.delivered <= |g.log|
            && var stream := GroupedStream(g.log, g.delivered);
               && HasPassed(moves + pass, c, ReadTo(stream))
               && EventsAfter(moves + pass, doc) == EventsAfter(moves, doc) + Deliveries(doc, NextEntries(stream))
  {
    RunKeepsGroup(moves);
    var g := GroupAfter(moves);
    var n := ReadTo(GroupedStream(g.log, g.delivered)) - g.delivered;
    pass := PassDelivers(g, c, doc, n);
    MovesConcat(moves, pass, doc);
  }
}
