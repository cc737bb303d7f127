/** What the consumer makes of a block's content: apps/api/app/consumer/worker.py and apps/api/app/consumer/crdt.py. */
module BlockContent {
  import opened Wrappers
  import opened Wire
  import opened Streams
  import opened Worker
  import ApplyOps
  import Base64
  import Handlers

  // ------------------------------------------------------------------ attributes

  /** The event is a delta for the block that takes effect. */
  predicate IsEffective(db: Db, ev: Event, key: Key, lib: Library) {
    IsFor(ev, key) && TakesEffect(db.rows, ev.doc, ev.e, lib)
  }

  /** None of the events, coming after `db`, is a delta for the block that takes effect. */
  predicate NoneEffective(db: Db, events: seq<Event>, key: Key, lib: Library) {
    events == [] ||
    var before := events[..|events| - 1];
    NoneEffective(db, before, key, lib) && !IsEffective(StepAll(db, before, lib), events[|events| - 1], key, lib)
  }

  /** The row is not deleted and the REST route leaves its content alone. */
  predicate Untouched(events: seq<Event>, key: Key) {
    forall i :: 0 <= i < |events| ==> events[i] != Deletes(key) && !Writes(events[i], key)
  }

  lemma StepContent(db: Db, ev: Event, key: Key, lib: Library)
    requires key in db.rows && ev != Deletes(key) && !Writes(ev, key)
    ensures var rows := Step(db, ev, lib).rows;
            && key in rows
            && (if IsEffective(db, ev, key, lib) then rows[key].content.attrs == None else rows[key].content == db.rows[key].content)
  {
  }

  lemma {:induction false} ContentStaysIff(db: Db, events: seq<Event>, key: Key, lib: Library)
    requires key in db.rows && db.rows[key].content.attrs.Some? && Untouched(events, key)
    ensures var rows := StepAll(db, events, lib).rows;
            && key in rows
            && if NoneEffective(db, events, key, lib) then rows[key].content == db.rows[key].content
               else rows[key].content.attrs == None
  {
    if events != [] {
      var before := events[..|events| - 1];
      ContentStaysIff(db, before, key, lib);
      StepContent(StepAll(db, before, lib), events[|events| - 1], key, lib);
    }
  }

  /**
   * Attributes set by update_attrs survive exactly until a delta of the block takes
   * effect: until then they are the patched ones, from then on there are none.
   */
  lemma AttrsSurviveIff(db: Db, key: Key, patch: Attrs, events: seq<Event>, lib: Library)
    requires key in db.rows && Untouched(events, key)
    ensures var patched := Step(db, Patches(key, patch), lib);
            var rows := StepAll(patched, events, lib).rows;
            var attrs := ApplyOps.Patched(AttrsOf(db.rows[key].content), patch);
            && key in rows
            && (rows[key].content.attrs == Some(attrs) <==> NoneEffective(patched, events, key, lib))
            && (rows[key].content.attrs == None <==> !NoneEffective(patched, events, key, lib))
  {
    ContentStaysIff(Step(db, Patches(key, patch), lib), events, key, lib);
  }

  // ---------------------------------------------------------------------- base64

  /** The entry an instance appends for the delta `bytes` of a client. */
  function Streamed(id: StreamId, blockId: string, bytes: string, userId: string): Entry
    requires Base64.IsBytes(bytes)
  {
    Entry(id, Handlers.CrdtFields(blockId, Base64.Encode(bytes), userId))
  }

  /** It is a delta for the block it names, and carries the text, which is never the delta but decodes to it. */
  lemma StreamedIsDelta(doc: nat, id: StreamId, blockId: string, bytes: string, userId: string)
    requires Base64.IsBytes(bytes) && blockId != "" && bytes != ""
    ensures var e := Streamed(id, blockId, bytes, userId);
            && IsDelta(e) && Target(doc, e) == (doc, blockId)
            && Delta(e) == Base64.Encode(bytes) != bytes && Base64.Decode(Delta(e)) == bytes
  {
    Base64.EncodedDiffers(bytes);
    Base64.RoundTrip(bytes);
    Handlers.ReplayedAsSent(id, blockId, Base64.Encode(bytes), userId, _ => true);
  }

  /** All deltas handled are ones that instances appended. */
  ghost predicate AllStreamed(events: seq<Event>) {
    forall i :: 0 <= i < |events| && events[i].Handles? && IsDelta(events[i].e) ==> IsText(Delta(events[i].e))
  }

  ghost predicate IsText(delta: string) {
    exists bytes :: Base64.IsBytes(bytes) && bytes != "" && delta == Base64.Encode(bytes)
  }

  /** The library accepts some base64 text as a first delta. */
  ghost predicate AcceptsText(lib: Library) {
    exists delta :: IsText(delta) && lib.apply(None, delta).Some?
  }

  ghost predicate Pristine(rows: map<Key, Row>) {
    forall key :: key in rows ==> rows[key].state == None && rows[key].watermark == None
  }

  /** Only entries that are no deltas have been acknowledged. */
  ghost predicate OnlyOthersAcked(events: seq<Event>, acked: set<(nat, StreamId)>) {
    forall a :: a in acked ==>
      exists i :: 0 <= i < |events| && events[i].Handles? && !IsDelta(events[i].e) && a == (events[i].doc, events[i].e.id)
  }

  lemma OthersAckedStay(before: seq<Event>, ev: Event, acked: set<(nat, StreamId)>)
    requires OnlyOthersAcked(before, acked)
    ensures OnlyOthersAcked(before + [ev], acked)
    ensures ev.Handles? && !IsDelta(ev.e) ==> OnlyOthersAcked(before + [ev], acked + {(ev.doc, ev.e.id)})
  {
    var events := before + [ev];
    forall a | a in acked
      ensures exists i :: 0 <= i < |events| && events[i].Handles? && !IsDelta(events[i].e) && a == (events[i].doc, events[i].e.id)
    {
      var i :| 0 <= i < |before| && before[i].Handles? && !IsDelta(before[i].e) && a == (before[i].doc, before[i].e.id);
      assert events[i] == before[i];
    }
    assert events[|before|] == ev;
  }

  /** One event on rows no delta has ever changed: a streamed delta raises, so nothing is acknowledged either. */
  lemma TextStep(db: Db, ev: Event, lib: Library)
    requires Pristine(db.rows) && !AcceptsText(lib) && (ev.Handles? && IsDelta(ev.e) ==> IsText(Delta(ev.e)))
    ensures Pristine(Step(db, ev, lib).rows)
    ensures Step(db, ev, lib).acked == db.acked ||
              (ev.Handles? && !IsDelta(ev.e) && Step(db, ev, lib).acked == db.acked + {(ev.doc, ev.e.id)})
  {
  }

  lemma {:induction false} TextNeverApplies(events: seq<Event>, lib: Library)
    requires AllStreamed(events) && !AcceptsText(lib)
    ensures Pristine(Run(events, lib).rows) && OnlyOthersAcked(events, Run(events, lib).acked)
  {
    if events != [] {
      var before, last := events[..|events| - 1], events[|events| - 1];
      TextNeverApplies(before, lib);
      TextStep(Run(before, lib), last, lib);
      OthersAckedStay(before, last, Run(before, lib).acked);
      assert events == before + [last];
    }
  }

  lemma InsertedRow(key: Key, lib: Library)
    ensures Run([Inserts(key, Content(None, ""))], lib).rows == map[key := Row(None, Content(None, ""), None)]
  {
    assert [Inserts(key, Content(None, ""))][..0] == [];
    assert StepAll(Db(map[], {}), [], lib) == Db(map[], {});
  }

  lemma TextApplies(bytes: string, lib: Library) returns (events: seq<Event>)
    requires Base64.IsBytes(bytes) && bytes != "" && lib.apply(None, Base64.Encode(bytes)).Some?
    ensures AllStreamed(events) && !Pristine(Run(events, lib).rows)
  {
    var e := Streamed(StreamId(1, 0), "b", bytes, "1");
    StreamedIsDelta(0, e.id, "b", bytes, "1");
    var key := Target(0, e);
    var inserted := [Inserts(key, Content(None, ""))];
    events := inserted + [Handles(0, e, false)];
    InsertedRow(key, lib);
    FirstTakesEffect(Run(inserted, lib), e, key, lib);
    assert events[..1] == inserted;
    assert Run(events, lib) == Step(Run(inserted, lib), Handles(0, e, false), lib);
  }

  lemma FirstTakesEffect(db: Db, e: Entry, key: Key, lib: Library)
    requires IsDelta(e) && Target(0, e) == key && lib.apply(None, Delta(e)).Some?
    requires key in db.rows && db.rows[key].state == None && db.rows[key].watermark == None
    ensures var rows := Step(db, Handles(0, e, false), lib).rows; key in rows && rows[key].watermark.Some?
  {
  }

  /**
   * Since the consumer hands the text on undecoded: streamed deltas can change a row at
   * all exactly if the library accepts some base64 text as a first delta; if it does not,
   * no delta is ever acknowledged.
   */
  lemma TextAppliesIff(lib: Library)
    ensures (exists events :: AllStreamed(events) && !Pristine(Run(events, lib).rows)) <==> AcceptsText(lib)
    ensures !AcceptsText(lib) ==> forall events :: AllStreamed(events) ==> OnlyOthersAcked(events, Run(events, lib).acked)
  {
    if delta :| IsText(delta) && lib.apply(None, delta).Some? {
      var bytes :| Base64.IsBytes(bytes) && bytes != "" && delta == Base64.Encode(bytes);
      var events := TextApplies(bytes, lib);
    } else {
      forall events | AllStreamed(events)
        ensures Pristine(Run(events, lib).rows) && OnlyOthersAcked(events, Run(events, lib).acked)
      {
        TextNeverApplies(events, lib);
      }
    }
  }
}
