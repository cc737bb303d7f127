/** The consumer that folds streamed deltas into block rows: apps/api/app/consumer/worker.py. */
module Worker {
  import opened Wrappers
  import opened Wire
  import opened Streams
  import opened Replay
  import opened ConsumerGroups
  import ApplyOps

  /** Document and block id. */
  type Key = (nat, string)

  /** The columns the consumer reads and writes; state and watermark are NULL on insertion. */
  datatype Row = Row(state: Option<string>, content: Content, watermark: Option<StreamId>)

  /** The Yjs binding: hydrate, apply one delta and encode (None when it raises), and the inline children read off a state. */
  datatype Library = Library(apply: (Option<string>, string) -> Option<string>, extract: string -> string)

  /** The rows in Postgres and the acknowledged entries in Redis. */
  datatype Db = Db(rows: map<Key, Row>, acked: set<(nat, StreamId)>)

  // ------------------------------------------------------------ specification

  /** A well-formed crdt entry. */
  predicate IsDelta(e: Entry) {
    var m := FieldsMap(e.fields);
    IsCrdt(m) && !IsMalformed(m)
  }

  /** An entry of operations, of an unknown kind or of none, or a delta without block or text. */
  predicate IsOther(e: Entry) {
    var m := FieldsMap(e.fields);
    || "kind" !in m || m["kind"] != "crdt"
    || "blockId" !in m || m["blockId"] == "" || "delta" !in m || m["delta"] == ""
  }

  function Target(doc: nat, e: Entry): Key
    requires IsDelta(e)
  {
    (doc, FieldsMap(e.fields)["blockId"])
  }

  function Delta(e: Entry): string
    requires IsDelta(e)
  {
    FieldsMap(e.fields)["delta"]
  }

  predicate Covers(watermark: Option<StreamId>, id: StreamId) {
    watermark.Some? && AtMost(id, watermark.value)
  }

  /** The rows after handling an entry, or None when the handler raises. */
  function Handled(rows: map<Key, Row>, doc: nat, e: Entry, lib: Library): Option<map<Key, Row>> {
    if !IsDelta(e) then Some(rows)
    else if Target(doc, e) !in rows then None
    else
      var row := rows[Target(doc, e)];
      if Covers(row.watermark, e.id) then Some(rows)
      else
        var state := lib.apply(row.state, Delta(e));
        if state.None? then None
        else Some(rows[Target(doc, e) := Row(state, Content(None, lib.extract(state.value)), Some(e.id))])
  }

  /**
   * What can happen to the rows: some consumer handles an entry, possibly not for the first
   * time, and may crash between commit and ack; the REST route inserts, deletes or
   * overwrites the content of a block.
   */
  datatype Event =
    | Handles(doc: nat, e: Entry, crashed: bool)
    | Inserts(key: Key, content: Content)
    | Deletes(key: Key)
    | Overwrites(key: Key, content: Content)
    | Patches(key: Key, patch: Attrs)

  function WithContent(db: Db, key: Key, content: Content): Db {
    if key in db.rows then db.(rows := db.rows[key := db.rows[key].(content := content)]) else db
  }

  function Step(db: Db, ev: Event, lib: Library): Db {
    match ev
    case Handles(doc, e, crashed) =>
      var rows := Handled(db.rows, doc, e, lib);
      if rows.None? then db
      else Db(rows.value, if crashed then db.acked else db.acked + {(doc, e.id)})
    case Inserts(key, content) => if key in db.rows then db else db.(rows := db.rows[key := Row(None, content, None)])
    case Deletes(key) => db.(rows := db.rows - {key})
    case Overwrites(key, content) => WithContent(db, key, content)
    case Patches(key, patch) => if key in db.rows then WithContent(db, key, ApplyOps.MergeAttrs(db.rows[key].content, patch)) else db
  }

  function StepAll(db: Db, events: seq<Event>, lib: Library): Db {
    if events == [] then db
    else Step(StepAll(db, events[..|events| - 1], lib), events[|events| - 1], lib)
  }

  function Run(events: seq<Event>, lib: Library): Db {
    StepAll(Db(map[], {}), events, lib)
  }

  lemma {:induction false} StepAllConcat(db: Db, a: seq<Event>, b: seq<Event>, lib: Library)
    ensures StepAll(db, a + b, lib) == StepAll(StepAll(db, a, lib), b, lib)
  {
    if b == [] {
      assert a + b == a;
    } else {
      assert (a + b)[..|a + b| - 1] == a + b[..|b| - 1];
      StepAllConcat(db, a, b[..|b| - 1], lib);
    }
  }

  // ----------------------------------------------------------------- programs

  function Deliveries(doc: nat, entries: seq<Entry>): seq<Event> {
    if entries == [] then []
    else Deliveries(doc, entries[..|entries| - 1]) + [Handles(doc, entries[|entries| - 1], false)]
  }

  /** The entries of `n` batches in order; `docOf` reads the document off a stream key. */
  function AllDeliveries(docOf: string -> Option<nat>, batches: seq<StreamEntries>, n: nat): seq<Event>
    requires n <= |batches|
    requires forall i :: 0 <= i < n ==> docOf(batches[i].key).Some?
  {
    if n == 0 then []
    else AllDeliveries(docOf, batches, n - 1) + Deliveries(docOf(batches[n - 1].key).value, batches[n - 1].entries)
  }

  lemma DeliveryNext(db: Db, docOf: string -> Option<nat>, batches: seq<StreamEntries>, n: nat, lib: Library)
    requires n < |batches| && forall i :: 0 <= i < n + 1 ==> docOf(batches[i].key).Some?
    ensures StepAll(db, AllDeliveries(docOf, batches, n + 1), lib) ==
              StepAll(StepAll(db, AllDeliveries(docOf, batches, n), lib),
                      Deliveries(docOf(batches[n].key).value, batches[n].entries), lib)
  {
    StepAllConcat(db, AllDeliveries(docOf, batches, n), Deliveries(docOf(batches[n].key).value, batches[n].entries), lib);
  }

  class OperationConsumer {
    var rows: map<Key, Row>
    var acked: set<(nat, StreamId)>
    var knownStreams: set<string>
    const lib: Library
    const docOf: string -> Option<nat>

    constructor (rows: map<Key, Row>, acked: set<(nat, StreamId)>, lib: Library, docOf: string -> Option<nat>)
      ensures View() == Db(rows, acked) && knownStreams == {} && this.lib == lib && this.docOf == docOf
    {
      this.rows, this.acked, this.lib, this.docOf := rows, acked, lib, docOf;
      knownStreams := {};
    }

    ghost function View(): Db
      reads this`rows, this`acked
    {
      Db(rows, acked)
    }

    /** One transaction; false when it raises, which rolls it back. */
    method ApplyCrdtDelta(key: Key, delta: string, id: StreamId) returns (ok: bool)
      modifies this`rows
      ensures ok == (key in old(rows) && (Covers(old(rows)[key].watermark, id) || lib.apply(old(rows)[key].state, delta).Some?))
      ensures rows == if !ok || Covers(old(rows)[key].watermark, id) then old(rows) else
                        var state := lib.apply(old(rows)[key].state, delta);
                        old(rows)[key := Row(state, Content(None, lib.extract(state.value)), Some(id))]
    {
      if key !in rows {
        return false;
      }
      var lastApplied := rows[key].watermark;
      if lastApplied.Some? && AtMost(id, lastApplied.value) {
        return true;
      }
      var newState := lib.apply(rows[key].state, delta);
      if newState.None? {
        return false;
      }
      rows := rows[key := Row(newState, Content(None, lib.extract(newState.value)), Some(id))];
      return true;
    }

    method HandleEntry(doc: nat, e: Entry) returns (ok: bool)
      modifies this`rows
      ensures var after := Handled(old(rows), doc, e, lib);
              ok == after.Some? && rows == if after.Some? then after.value else old(rows)
      ensures IsOther(e) ==> ok && rows == old(rows)
    {
      var fields := ComputeFieldsMap(e.fields);
      var kind := Get(fields, "kind", "");
      if kind == "ops" {
        return true;
      }
      if kind != "crdt" {
        return true;
      }
      var blockId, delta := Get(fields, "blockId", ""), Get(fields, "delta", "");
      if blockId == "" || delta == "" {
        return true;
      }
      ok := ApplyCrdtDelta((doc, blockId), delta, e.id);
    }

    method HandleBatch(doc: nat, entries: seq<Entry>)
      modifies this`rows, this`acked
      ensures View() == StepAll(old(View()), Deliveries(doc, entries), lib)
    {
      for i := 0 to |entries|
        invariant View() == StepAll(old(View()), Deliveries(doc, entries[..i]), lib)
      {
        assert entries[..i + 1][..i] == entries[..i];
        var ok := HandleEntry(doc, entries[i]);
        if ok {
          acked := acked + {(doc, entries[i].id)};
        }
      }
      assert entries[..|entries|] == entries;
    }

    /** Handles the batches of a reply up to the first unexpected stream key. */
    method HandleReply(reply: seq<StreamEntries>) returns (read: nat)
      modifies this`rows, this`acked
      ensures read <= |reply| && (read < |reply| ==> docOf(reply[read].key).None?)
      ensures forall i :: 0 <= i < read ==> docOf(reply[i].key).Some?
      ensures View() == StepAll(old(View()), AllDeliveries(docOf, reply, read), lib)
    {
      read := 0;
      while read < |reply| && docOf(reply[read].key).Some?
        invariant read <= |reply|
        invariant forall i :: 0 <= i < read ==> docOf(reply[i].key).Some?
        invariant View() == StepAll(old(View()), AllDeliveries(docOf, reply, read), lib)
      {
        DeliveryNext(old(View()), docOf, reply, read, lib);
        HandleBatch(docOf(reply[read].key).value, reply[read].entries);
        read := read + 1;
      }
    }

    /**
     * One pass: reads the next entries of all known streams, handles them, and
     * acknowledges exactly what was handled without raising.  What was read counts as
     * handed out either way.  An unexpected stream key ends the pass.
     */
    method ReadOnce(redis: Redis) returns (reply: seq<StreamEntries>, read: nat)
      requires StreamsOk(redis.streams)
      modifies this, redis
      ensures StreamsOk(redis.streams) && redis.streams == HandedOut(old(redis.streams), knownStreams)
      ensures knownStreams == if old(knownStreams) <= old(redis.streams).Keys then old(knownStreams) else {}
      ensures IsReply(old(redis.streams), knownStreams, reply)
      ensures read <= |reply| && (read < |reply| ==> docOf(reply[read].key).None?)
      ensures forall i :: 0 <= i < read ==> docOf(reply[i].key).Some?
      ensures View() == StepAll(old(View()), AllDeliveries(docOf, reply, read), lib)
    {
      reply, read := [], 0;
      assert HandedOut(redis.streams, {}) == redis.streams;
      if knownStreams == {} {
        return;
      }
      var answer := redis.XReadGroup(knownStreams);
      if answer.None? {
        knownStreams := {};
        return;
      }
      reply := answer.value;
      read := HandleReply(reply);
    }
  }

  // -------------------------------------------------- what a row has been through

  /** The block's row exists after these events. */
  predicate Alive(events: seq<Event>, key: Key) {
    if events == [] then false
    else
      var before, last := events[..|events| - 1], events[|events| - 1];
      if last.Inserts? && last.key == key then true
      else if last.Deletes? && last.key == key then false
      else Alive(before, key)
  }

  predicate IsFor(ev: Event, key: Key) {
    ev.Handles? && IsDelta(ev.e) && Target(ev.doc, ev.e) == key
  }

  /** The deltas handled for the block since its row was last inserted, in the order of handling. */
  function Life(events: seq<Event>, key: Key): seq<Entry> {
    if !Alive(events, key) then []
    else
      var before, last := events[..|events| - 1], events[|events| - 1];
      Life(before, key) + if IsFor(last, key) && Alive(before, key) then [last.e] else []
  }

  predicate AllDeltas(h: seq<Entry>) {
    forall i :: 0 <= i < |h| ==> IsDelta(h[i])
  }

  /** The state after applying deltas in turn to an empty document. */
  function StateAfter(h: seq<Entry>, lib: Library): Option<string>
    requires AllDeltas(h)
  {
    if h == [] then None else lib.apply(StateAfter(h[..|h| - 1], lib), Delta(h[|h| - 1]))
  }

  /** No delta raises when applied in turn. */
  predicate Applies(h: seq<Entry>, lib: Library)
    requires AllDeltas(h)
  {
    h == [] || (Applies(h[..|h| - 1], lib) && StateAfter(h, lib).Some?)
  }

  predicate AboveEach(id: StreamId, h: seq<Entry>) {
    forall i :: 0 <= i < |h| ==> Precedes(h[i].id, id)
  }

  /** The deltas of `h` that take effect: each with an id above all that did before, and accepted by the library. */
  function Effective(h: seq<Entry>, lib: Library): (r: seq<Entry>)
    requires AllDeltas(h)
    ensures AllDeltas(r) && forall e :: e in r ==> e in h
  {
    if h == [] then []
    else
      var done, e := Effective(h[..|h| - 1], lib), h[|h| - 1];
      if AboveEach(e.id, done) && lib.apply(StateAfter(done, lib), Delta(e)).Some? then done + [e] else done
  }

  function LastId(h: seq<Entry>): Option<StreamId> {
    if h == [] then None else Some(h[|h| - 1].id)
  }

  lemma {:induction false} EffectiveIncreases(h: seq<Entry>, lib: Library)
    requires AllDeltas(h)
    ensures Increasing(Effective(h, lib)) && Applies(Effective(h, lib), lib)
  {
    if h != [] {
      EffectiveIncreases(h[..|h| - 1], lib);
      var done, e := Effective(h[..|h| - 1], lib), h[|h| - 1];
      assert (done + [e])[..|done|] == done;
    }
  }

  lemma AboveLastIsAboveAll(h: seq<Entry>, id: StreamId)
    requires Increasing(h)
    ensures AboveEach(id, h) <==> !Covers(LastId(h), id)
  {
    if h != [] {
      var last := h[|h| - 1].id;
      assert forall i :: 0 <= i < |h| ==> AtMost(h[i].id, last);
      assert !Covers(LastId(h), id) <==> Precedes(last, id);
    }
  }

  lemma {:induction false} LifeHasDeltas(events: seq<Event>, key: Key)
    ensures AllDeltas(Life(events, key))
  {
    if events != [] {
      LifeHasDeltas(events[..|events| - 1], key);
    }
  }

  ghost predicate RowFits(rows: map<Key, Row>, key: Key, alive: bool, done: seq<Entry>, lib: Library)
    requires AllDeltas(done)
  {
    && (key in rows <==> alive)
    && (alive ==> rows[key].state == StateAfter(done, lib) && rows[key].watermark == LastId(done))
  }

  lemma EffectiveNext(h: seq<Entry>, e: Entry, lib: Library)
    requires AllDeltas(h) && IsDelta(e)
    ensures AllDeltas(h + [e])
    ensures var done := Effective(h, lib);
            Effective(h + [e], lib) ==
              if AboveEach(e.id, done) && lib.apply(StateAfter(done, lib), Delta(e)).Some? then done + [e] else done
  {
    assert (h + [e])[..|h|] == h;
  }

  lemma StateAfterNext(h: seq<Entry>, e: Entry, lib: Library)
    requires AllDeltas(h) && IsDelta(e)
    ensures AllDeltas(h + [e]) && StateAfter(h + [e], lib) == lib.apply(StateAfter(h, lib), Delta(e))
  {
    assert (h + [e])[..|h|] == h;
  }

  /** Handling a delta changes its own row as its life says. */
  lemma HandlingFits(rows: map<Key, Row>, key: Key, h: seq<Entry>, doc: nat, e: Entry, lib: Library)
    requires AllDeltas(h) && RowFits(rows, key, true, Effective(h, lib), lib)
    requires IsDelta(e) && Target(doc, e) == key
    ensures AllDeltas(h + [e])
    ensures var after := Handled(rows, doc, e, lib);
            RowFits(if after.Some? then after.value else rows, key, true, Effective(h + [e], lib), lib)
  {
    var done := Effective(h, lib);
    EffectiveIncreases(h, lib);
    AboveLastIsAboveAll(done, e.id);
    EffectiveNext(h, e, lib);
    StateAfterNext(done, e, lib);
    assert LastId(done + [e]) == Some(e.id);
  }

  /** Every other event leaves the rest of a row's life alone. */
  lemma OtherEventFits(db: Db, key: Key, done: seq<Entry>, ev: Event, alive: bool, lib: Library)
    requires AllDeltas(done) && RowFits(db.rows, key, alive, done, lib) && (!alive ==> done == [])
    requires !(IsFor(ev, key) && alive)
    ensures var now := (ev.Inserts? && ev.key == key) || (alive && !(ev.Deletes? && ev.key == key));
            RowFits(Step(db, ev, lib).rows, key, now, if now then done else [], lib)
  {
  }

  lemma LifeNext(events: seq<Event>, key: Key)
    requires events != []
    ensures var before, last := events[..|events| - 1], events[|events| - 1];
            && Alive(events, key) == ((last.Inserts? && last.key == key) || (Alive(before, key) && !(last.Deletes? && last.key == key)))
            && (Alive(events, key) ==>
                  Life(events, key) == if IsFor(last, key) && Alive(before, key) then Life(before, key) + [last.e] else Life(before, key))
            && (!Alive(before, key) ==> Life(before, key) == [])
  {
  }

  lemma StepFits(db: Db, events: seq<Event>, key: Key, lib: Library)
    requires events != [] && AllDeltas(Life(events, key)) && AllDeltas(Life(events[..|events| - 1], key))
    requires var before := events[..|events| - 1]; RowFits(db.rows, key, Alive(before, key), Effective(Life(before, key), lib), lib)
    ensures RowFits(Step(db, events[|events| - 1], lib).rows, key, Alive(events, key), Effective(Life(events, key), lib), lib)
  {
    var before, last := events[..|events| - 1], events[|events| - 1];
    LifeNext(events, key);
    if IsFor(last, key) && Alive(before, key) {
      HandlingFits(db.rows, key, Life(before, key), last.doc, last.e, lib);
    } else {
      OtherEventFits(db, key, Effective(Life(before, key), lib), last, Alive(before, key), lib);
    }
  }

  /**
   * Consumer safety.  After any events, with any number of consumers, redeliveries and
   * crashes, a row's state is the fold of exactly the deltas that took effect in its
   * present life, whose ids strictly increase up to the watermark.
   */
  lemma {:induction false} RowIsItsLife(events: seq<Event>, key: Key, lib: Library)
    ensures AllDeltas(Life(events, key))
    ensures var done := Effective(Life(events, key), lib);
            Increasing(done) && Applies(done, lib) && RowFits(Run(events, lib).rows, key, Alive(events, key), done, lib)
  {
    LifeHasDeltas(events, key);
    EffectiveIncreases(Life(events, key), lib);
    if events != [] {
      var before := events[..|events| - 1];
      RowIsItsLife(before, key, lib);
      StepFits(Run(before, lib), events, key, lib);
    }
  }

  lemma AllAbove(h: seq<Entry>, lib: Library)
    requires AllDeltas(h) && h != [] && Increasing(h) && Applies(h, lib)
    ensures var before, e := h[..|h| - 1], h[|h| - 1];
            && Increasing(before) && Applies(before, lib) && AboveEach(e.id, before)
            && lib.apply(StateAfter(before, lib), Delta(e)).Some?
  {
  }

  lemma EffectiveSplits(h: seq<Entry>, lib: Library)
    requires AllDeltas(h) && h != [] && AboveEach(h[|h| - 1].id, Effective(h[..|h| - 1], lib))
    requires lib.apply(StateAfter(Effective(h[..|h| - 1], lib), lib), Delta(h[|h| - 1])).Some?
    ensures Effective(h, lib) == Effective(h[..|h| - 1], lib) + [h[|h| - 1]]
  {
  }

  lemma {:induction false} IncreasingIsEffective(h: seq<Entry>, lib: Library)
    requires AllDeltas(h) && Increasing(h) && Applies(h, lib)
    ensures Effective(h, lib) == h
  {
    if h != [] {
      AllAbove(h, lib);
      IncreasingIsEffective(h[..|h| - 1], lib);
      EffectiveSplits(h, lib);
    }
  }

  /** Every handled delta of a life took effect exactly if their ids strictly increase and none raises in turn. */
  lemma AllEffectiveIff(h: seq<Entry>, lib: Library)
    requires AllDeltas(h)
    ensures Effective(h, lib) == h <==> Increasing(h) && Applies(h, lib)
  {
    EffectiveIncreases(h, lib);
    if Increasing(h) && Applies(h, lib) {
      IncreasingIsEffective(h, lib);
    }
  }

  /** The delta `e` takes effect when it is handled next. */
  predicate TakesEffect(rows: map<Key, Row>, doc: nat, e: Entry, lib: Library) {
    && IsDelta(e) && Target(doc, e) in rows
    && var row := rows[Target(doc, e)];
       !Covers(row.watermark, e.id) && lib.apply(row.state, Delta(e)).Some?
  }

  ghost predicate ShowsState(rows: map<Key, Row>, key: Key, lib: Library) {
    && key in rows && rows[key].state.Some?
    && rows[key].content.body == lib.extract(rows[key].state.value) && rows[key].content.attrs == None
  }

  /** The REST route changes the content of the block. */
  predicate Writes(ev: Event, key: Key) {
    (ev.Overwrites? || ev.Patches?) && ev.key == key
  }

  lemma StepShowsState(db: Db, ev: Event, key: Key, lib: Library)
    requires ShowsState(db.rows, key, lib) && ev != Deletes(key) && !Writes(ev, key)
    ensures ShowsState(Step(db, ev, lib).rows, key, lib)
  {
  }

  /** From a delta that takes effect on, the content is the view of the state, until the row is deleted or its content overwritten. */
  lemma {:induction false} ContentShowsState(before: seq<Event>, doc: nat, e: Entry, crashed: bool, after: seq<Event>, lib: Library)
    requires TakesEffect(Run(before, lib).rows, doc, e, lib)
    requires forall i :: 0 <= i < |after| ==>
               after[i] != Deletes(Target(doc, e)) && !Writes(after[i], Target(doc, e))
    ensures ShowsState(Run(before + [Handles(doc, e, crashed)] + after, lib).rows, Target(doc, e), lib)
  {
    var events := before + [Handles(doc, e, crashed)] + after;
    if after == [] {
      assert events[..|events| - 1] == before;
    } else {
      assert events[..|events| - 1] == before + [Handles(doc, e, crashed)] + after[..|after| - 1];
      ContentShowsState(before, doc, e, crashed, after[..|after| - 1], lib);
      StepShowsState(Run(events[..|events| - 1], lib), after[|after| - 1], Target(doc, e), lib);
    }
  }

  // -------------------------------------------------------------- acknowledging

  /** What is acknowledged and concerns a block is at or below its watermark; what raises is not acknowledged. */
  lemma AckedWhenCovered(db: Db, doc: nat, e: Entry, lib: Library)
    requires IsDelta(e)
    ensures var after, key := Step(db, Handles(doc, e, false), lib), Target(doc, e);
            if Handled(db.rows, doc, e, lib).Some?
            then (doc, e.id) in after.acked && key in after.rows && Covers(after.rows[key].watermark, e.id)
            else after == db
  {
  }

  /** Every other entry is acknowledged, unless the consumer dies, and leaves all rows as they are. */
  lemma OthersAreAcked(db: Db, doc: nat, e: Entry, crashed: bool, lib: Library)
    requires IsOther(e)
    ensures Step(db, Handles(doc, e, crashed), lib) == Db(db.rows, if crashed then db.acked else db.acked + {(doc, e.id)})
  {
  }

  /** The one row a delta that takes effect changes, and what it says then. */
  lemma EffectIs(db: Db, doc: nat, e: Entry, crashed: bool, lib: Library)
    requires TakesEffect(db.rows, doc, e, lib)
    ensures !IsOther(e)
    ensures var m, after := FieldsMap(e.fields), Step(db, Handles(doc, e, crashed), lib);
            var key := (doc, m["blockId"]);
            && key in db.rows && after.rows.Keys == db.rows.Keys
            && (forall x :: x in db.rows && x != key ==> after.rows[x] == db.rows[x])
            && after.acked == (if crashed then db.acked else db.acked + {(doc, e.id)})
            && var row := after.rows[key];
               && row.state == lib.apply(db.rows[key].state, m["delta"]) && row.state.Some?
               && row.content.body == lib.extract(row.state.value) && row.content.attrs == None
               && row.watermark == Some(e.id)
  {
  }

  /** What is covered is acknowledged without effect; a missing row or a failing library call leaves everything as it is. */
  lemma NoEffectIs(db: Db, doc: nat, e: Entry, crashed: bool, lib: Library)
    requires !IsOther(e) && !TakesEffect(db.rows, doc, e, lib)
    ensures var m := FieldsMap(e.fields);
            var key := (doc, m["blockId"]);
            Step(db, Handles(doc, e, crashed), lib) ==
              if key in db.rows && db.rows[key].watermark.Some? && AtMost(e.id, db.rows[key].watermark.value)
              then Db(db.rows, if crashed then db.acked else db.acked + {(doc, e.id)})
              else db
  {
  }

  lemma WatermarkGrows(db: Db, ev: Event, key: Key, id: StreamId, lib: Library)
    requires key in db.rows && Covers(db.rows[key].watermark, id) && ev != Deletes(key)
    ensures key in Step(db, ev, lib).rows && Covers(Step(db, ev, lib).rows[key].watermark, id)
  {
  }

  /** Once acknowledged, a delta stays covered for the rest of the row's life, whatever happens. */
  lemma {:induction false} AckedStaysCovered(before: seq<Event>, doc: nat, e: Entry, after: seq<Event>, lib: Library)
    requires IsDelta(e) && Handled(Run(before, lib).rows, doc, e, lib).Some?
    requires Deletes(Target(doc, e)) !in after
    ensures var rows, key := Run(before + [Handles(doc, e, false)] + after, lib).rows, Target(doc, e);
            key in rows && Covers(rows[key].watermark, e.id)
  {
    var events := before + [Handles(doc, e, false)] + after;
    if after == [] {
      assert events[..|events| - 1] == before;
      AckedWhenCovered(Run(before, lib), doc, e, lib);
    } else {
      assert events[..|events| - 1] == before + [Handles(doc, e, false)] + after[..|after| - 1];
      AckedStaysCovered(before, doc, e, after[..|after| - 1], lib);
      WatermarkGrows(Run(events[..|events| - 1], lib), after[|after| - 1], Target(doc, e), e.id, lib);
    }
  }

  // ------------------------------------------------------------ in-order reading

  /** The block's well-formed entries among those handled for its document. */
  function HandledFor(events: seq<Event>, key: Key): seq<Entry> {
    if events == [] then []
    else HandledFor(events[..|events| - 1], key) + if IsFor(events[|events| - 1], key) then [events[|events| - 1].e] else []
  }

  /** The row is there whenever one of the block's deltas is handled, and it is never deleted. */
  ghost predicate RowPresent(events: seq<Event>, key: Key) {
    Deletes(key) !in events && forall i :: 0 <= i < |events| && IsFor(events[i], key) ==> Alive(events[..i], key)
  }

  lemma {:induction false} PresentLife(events: seq<Event>, key: Key)
    requires RowPresent(events, key)
    ensures Life(events, key) == HandledFor(events, key)
  {
    if events != [] {
      var before, last := events[..|events| - 1], events[|events| - 1];
      assert forall i :: 0 <= i < |before| ==> before[..i] == events[..i] && before[i] == events[i];
      PresentLife(before, key);
      LifeNext(events, key);
    }
  }

  /**
   * With the row present throughout, every handled delta of the block takes effect, once
   * and in the order of handling, exactly if their ids increase and none raises in turn.
   */
  lemma AllHandledIff(events: seq<Event>, key: Key, lib: Library)
    requires RowPresent(events, key)
    ensures var h, rows := HandledFor(events, key), Run(events, lib).rows;
            && AllDeltas(h) && AllDeltas(Life(events, key))
            && (Effective(Life(events, key), lib) == h <==> Increasing(h) && Applies(h, lib))
            && (Increasing(h) && Applies(h, lib) && Alive(events, key) ==>
                  key in rows && rows[key].state == StateAfter(h, lib) && rows[key].watermark == LastId(h))
  {
    PresentLife(events, key);
    RowIsItsLife(events, key, lib);
    AllEffectiveIff(HandledFor(events, key), lib);
  }

  /** Out of order, the lower id is lost: once a higher one took effect, it is acknowledged without changing anything. */
  lemma LateEntryIsLost(events: seq<Event>, doc: nat, first: Entry, late: Entry, lib: Library)
    requires IsDelta(late) && AllDeltas(Life(events, Target(doc, late)))
    requires first in Effective(Life(events, Target(doc, late)), lib) && AtMost(late.id, first.id)
    ensures var db, key := Run(events, lib), Target(doc, late);
            && Step(db, Handles(doc, late, false), lib) == Db(db.rows, db.acked + {(doc, late.id)})
            && Effective(Life(events, key) + [late], lib) == Effective(Life(events, key), lib)
  {
    var key := Target(doc, late);
    var done := Effective(Life(events, key), lib);
    RowIsItsLife(events, key, lib);
    LifeStarts(events, key);
    AboveLastIsAboveAll(done, late.id);
    EffectiveNext(Life(events, key), late, lib);
  }

  lemma LifeStarts(events: seq<Event>, key: Key)
    ensures !Alive(events, key) ==> Life(events, key) == []
  {
  }
}
