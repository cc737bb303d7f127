/** Two runs of the consumers that lose an entry for good: apps/api/app/consumer/worker.py. */
module LostEntries {
  import opened Wrappers
  import opened Wire
  import opened Streams
  import opened Replay
  import opened Worker
  import opened Consumers
  import Handlers

  /** A delta for the block "b". */
  function DeltaEntry(ms: nat, delta: string): Entry {
    Entry(StreamId(ms, 0), Handlers.CrdtFields("b", delta, "1"))
  }

  lemma IsDeltaFor(doc: nat, ms: nat, delta: string)
    requires delta != ""
    ensures var e := DeltaEntry(ms, delta); IsDelta(e) && Target(doc, e) == (doc, "b") && Delta(e) == delta
  {
    Handlers.ReplayedAsSent(StreamId(ms, 0), "b", delta, "1", _ => true);
  }

  lemma NextGroup(moves: seq<Move>, m: Move, doc: nat)
    ensures GroupAfter(moves + [m]) == AfterMove(GroupAfter(moves), m)
    ensures EventsAfter(moves + [m], doc) == EventsAfter(moves, doc) + EventsOf(GroupAfter(moves), m, doc)
  {
    assert (moves + [m])[..|moves|] == moves;
  }

  lemma NextRows(events: seq<Event>, ev: Event, lib: Library)
    ensures Run(events + [ev], lib) == Step(Run(events, lib), ev, lib)
  {
    assert (events + [ev])[..|events|] == events;
  }

  lemma LastMoveHandles(moves: seq<Move>, m: Move, n: nat)
    requires IsHandling(GroupAfter(moves), m, n)
    ensures HandlesAt(moves + [m], |moves|, n)
  {
    assert (moves + [m])[..|moves|] == moves;
  }

  // --------------------------------------------------------------- before the insert

  /** A consumer has read the first entry. */
  function Handed(e: Entry): seq<Move> {
    [Appends(e)] + [Reads(0, 1)]
  }

  /** A consumer reads and handles a delta whose block is inserted only then. */
  function TooEarly(doc: nat, e: Entry, content: Content): seq<Move> {
    Handed(e) + [HandlesNext(0, false)] + [Rest(Inserts((doc, "b"), content))]
  }

  lemma HandedState(doc: nat, e: Entry)
    ensures GroupAfter(Handed(e)) == Group([e], 1, map[0 := Slice(0, 1)]) && EventsAfter(Handed(e), doc) == []
  {
    NextGroup([], Appends(e), doc);
    assert [] + [Appends(e)] == [Appends(e)];
    assert GroupAfter([Appends(e)]) == Group([e], 0, map[]);
    NextGroup([Appends(e)], Reads(0, 1), doc);
  }

  lemma HandledState(doc: nat, e: Entry)
    ensures var all := Handed(e) + [HandlesNext(0, false)];
            && GroupAfter(all) == Group([e], 1, map[0 := Slice(1, 1)]) && EventsAfter(all, doc) == [Handles(doc, e, false)]
  {
    HandedState(doc, e);
    NextGroup(Handed(e), HandlesNext(0, false), doc);
    assert map[0 := Slice(0, 1)][0 := Slice(1, 1)] == map[0 := Slice(1, 1)];
  }

  lemma TooEarlyState(doc: nat, e: Entry, content: Content)
    ensures EventsAfter(TooEarly(doc, e, content), doc) == [Handles(doc, e, false)] + [Inserts((doc, "b"), content)]
  {
    HandledState(doc, e);
    NextGroup(Handed(e) + [HandlesNext(0, false)], Rest(Inserts((doc, "b"), content)), doc);
  }

  /** The rows after a delta without row and the insert. */
  lemma EarlyRows(doc: nat, e: Entry, content: Content, lib: Library)
    requires IsDelta(e) && Target(doc, e) == (doc, "b")
    ensures Run([], lib) == Db(map[], {}) && Run([Handles(doc, e, false)], lib) == Db(map[], {})
    ensures Run([Handles(doc, e, false)] + [Inserts((doc, "b"), content)], lib) == Db(map[(doc, "b") := Row(None, content, None)], {})
  {
    var none: seq<Event> := [];
    assert none + [Handles(doc, e, false)] == [Handles(doc, e, false)];
    NextRows(none, Handles(doc, e, false), lib);
    NextRows([Handles(doc, e, false)], Inserts((doc, "b"), content), lib);
  }

  /** The delta raises, stays unacknowledged, and never takes effect, although its block has been inserted. */
  lemma TooEarlyIsLost(doc: nat, ms: nat, delta: string, content: Content, more: seq<Move>, lib: Library)
    requires delta != ""
    ensures var moves := TooEarly(doc, DeltaEntry(ms, delta), content);
            && Run(EventsAfter(moves, doc), lib) == Db(map[(doc, "b") := Row(None, content, None)], {})
            && !TookEffect(moves + more, 0, doc, lib)
  {
    var e := DeltaEntry(ms, delta);
    var all, rest := Handed(e) + [HandlesNext(0, false)], [Rest(Inserts((doc, "b"), content))];
    IsDeltaFor(doc, ms, delta);
    TooEarlyState(doc, e, content);
    EarlyRows(doc, e, content, lib);
    NotTaken(doc, e, lib);
    HandledState(doc, e);
    TooEarlyParts(doc, e, content, more);
    NeverRetried(all, rest + more, 0, doc, lib);
  }

  lemma TooEarlyParts(doc: nat, e: Entry, content: Content, more: seq<Move>)
    ensures TooEarly(doc, e, content) + more ==
              Handed(e) + [HandlesNext(0, false)] + ([Rest(Inserts((doc, "b"), content))] + more)
  {
  }

  lemma NotTaken(doc: nat, e: Entry, lib: Library)
    requires IsDelta(e) && Target(doc, e) == (doc, "b")
    ensures !TookEffect(Handed(e) + [HandlesNext(0, false)], 0, doc, lib)
  {
    var all := Handed(e) + [HandlesNext(0, false)];
    HandedState(doc, e);
    HandledState(doc, e);
    LastMoveHandles(Handed(e), HandlesNext(0, false), 0);
    assert all[..2] == Handed(e);
    TookEffectIff(all, 2, 0, doc, lib);
  }

  // -------------------------------------------------------------------- out of order

  /** Two consumers read one delta each, and the second delta is handled first. */
  function CrossedStart(doc: nat, first: Entry, second: Entry, content: Content): seq<Move> {
    [Rest(Inserts((doc, "b"), content))] + [Appends(first)] + [Appends(second)] + [Reads(0, 1)] + [Reads(1, 1)]
  }

  function Crossed(doc: nat, first: Entry, second: Entry, content: Content): seq<Move> {
    CrossedStart(doc, first, second, content) + [HandlesNext(1, false)] + [HandlesNext(0, false)]
  }

  lemma CrossedStartState(doc: nat, first: Entry, second: Entry, content: Content)
    requires Streams.Precedes(first.id, second.id)
    ensures var start := CrossedStart(doc, first, second, content);
            && GroupAfter(start) == Group([first, second], 2, map[0 := Slice(0, 1), 1 := Slice(1, 2)])
            && EventsAfter(start, doc) == [Inserts((doc, "b"), content)]
  {
    var a := [Rest(Inserts((doc, "b"), content))];
    var b := a + [Appends(first)];
    var c := b + [Appends(second)];
    NextGroup([], Rest(Inserts((doc, "b"), content)), doc);
    assert [] + a == a;
    NextGroup(a, Appends(first), doc);
    NextGroup(b, Appends(second), doc);
    NextGroup(c, Reads(0, 1), doc);
    NextGroup(c + [Reads(0, 1)], Reads(1, 1), doc);
  }

  lemma CrossedStates(doc: nat, first: Entry, second: Entry, content: Content)
    requires Streams.Precedes(first.id, second.id)
    ensures var start := CrossedStart(doc, first, second, content);
            && IsHandling(GroupAfter(start + [HandlesNext(1, false)]), HandlesNext(0, false), 0)
            && GroupAfter(start + [HandlesNext(1, false)]).log == [first, second]
            && EventsAfter(start + [HandlesNext(1, false)], doc) == [Inserts((doc, "b"), content)] + [Handles(doc, second, false)]
            && Gone(GroupAfter(Crossed(doc, first, second, content)), 0)
            && GroupAfter(Crossed(doc, first, second, content)).log == [first, second]
  {
    var start := CrossedStart(doc, first, second, content);
    CrossedStartState(doc, first, second, content);
    NextGroup(start, HandlesNext(1, false), doc);
    NextGroup(start + [HandlesNext(1, false)], HandlesNext(0, false), doc);
  }

  /** The row once the second delta has been handled. */
  lemma SecondTakesEffect(doc: nat, e: Entry, content: Content, lib: Library)
    requires IsDelta(e) && Target(doc, e) == (doc, "b") && lib.apply(None, Delta(e)).Some?
    ensures var rows := Run([Inserts((doc, "b"), content)] + [Handles(doc, e, false)], lib).rows;
            (doc, "b") in rows && rows[(doc, "b")].watermark == Some(e.id)
  {
    var none: seq<Event> := [];
    assert none + [Inserts((doc, "b"), content)] == [Inserts((doc, "b"), content)];
    NextRows(none, Inserts((doc, "b"), content), lib);
    NextRows([Inserts((doc, "b"), content)], Handles(doc, e, false), lib);
  }

  /** The first delta is handled, acknowledged, and never takes effect. */
  lemma CrossedIsLost(doc: nat, ms: nat, first: string, second: string, content: Content, more: seq<Move>, lib: Library)
    requires first != "" && second != "" && lib.apply(None, second).Some?
    ensures var moves := Crossed(doc, DeltaEntry(ms, first), DeltaEntry(ms + 1, second), content);
            && HandlesAt(moves, 6, 0)
            && (doc, StreamId(ms, 0)) in Run(EventsAfter(moves, doc), lib).acked
            && !TookEffect(moves + more, 0, doc, lib)
  {
    var e, f := DeltaEntry(ms, first), DeltaEntry(ms + 1, second);
    var start, moves := CrossedStart(doc, e, f, content), Crossed(doc, e, f, content);
    var before := start + [HandlesNext(1, false)];
    IsDeltaFor(doc, ms, first);
    IsDeltaFor(doc, ms + 1, second);
    CrossedStates(doc, e, f, content);
    LastMoveHandles(before, HandlesNext(0, false), 0);
    assert |before| == 6 && moves[..6] == before;
    SecondTakesEffect(doc, f, content, lib);
    TookEffectIff(moves, 6, 0, doc, lib);
    NeverRetried(moves, more, 0, doc, lib);
    HandlingIsEvent(moves, 6, 0, doc);
    assert moves[..7] == moves;
    NextRows(EventsAfter(before, doc), Handles(doc, e, false), lib);
  }
}
