/** The crdt handler and the bus listener of a WebSocket instance: apps/ws/src/handlers/crdt.ts and apps/ws/src/bus.ts. */
module Handlers {
  import opened Wrappers
  import opened Streams
  import opened Replay
  import opened Rooms

  /** A bus message: who published it ("" when unknown) and the frame, absent when the envelope is broken. */
  datatype Envelope = Envelope(origin: string, frame: Option<Frame>)

  /** The document stream in Redis, with all entries ever appended. */
  class StreamLog {
    var entries: seq<Entry>

    constructor ()
      ensures entries == []
    {
      entries := [];
    }

    /** XADD with `*`: an id above all earlier ones, taken from the clock when that is ahead; None when Redis fails. */
    method XAdd(fields: seq<string>, clock: nat, up: bool) returns (id: Option<StreamId>)
      requires Increasing(entries)
      modifies this
      ensures Increasing(entries)
      ensures id.Some? <==> up
      ensures entries == old(entries) + if up then [Entry(id.value, fields)] else []
    {
      if !up {
        return None;
      }
      var next := StreamId(clock, 0);
      if entries != [] {
        var last := entries[|entries| - 1].id;
        if clock <= last.ms {
          next := StreamId(last.ms, last.seqNo + 1);
        }
        assert forall i :: 0 <= i < |entries| ==> AtMost(entries[i].id, last);
      }
      entries := entries + [Entry(next, fields)];
      return Some(next);
    }
  }

  class Bus {
    var published: seq<Envelope>

    constructor ()
      ensures published == []
    {
      published := [];
    }

    /** A failing PUBLISH is only logged by its caller. */
    method Publish(e: Envelope, up: bool)
      modifies this
      ensures published == old(published) + if up then [e] else []
    {
      if up {
        published := published + [e];
      }
    }
  }

  function CrdtFields(blockId: string, delta: string, userId: string): seq<string> {
    ["kind", "crdt", "blockId", blockId, "delta", delta, "userId", userId]
  }

  /** A streamed delta replays as the very frame its peers got live. */
  lemma ReplayedAsSent(id: StreamId, blockId: string, delta: string, userId: string, parses: string -> bool)
    requires blockId != "" && delta != ""
    ensures FrameOf(Entry(id, CrdtFields(blockId, delta, userId)), parses) == Some(CrdtFrame(blockId, delta, userId, id))
  {
    var fields := CrdtFields(blockId, delta, userId);
    var m0 := FieldsUpTo(fields, 0);
    var m2 := FieldsUpTo(fields, 2);
    assert m0 == map[] && m2 == m0["kind" := "crdt"];
    var m4 := FieldsUpTo(fields, 4);
    assert m4 == m2["blockId" := blockId];
    var m6 := FieldsUpTo(fields, 6);
    assert m6 == m4["delta" := delta];
    assert FieldsMap(fields) == m6["userId" := userId];
    assert |"blockId"| == 7 && |"delta"| == 5 && |"userId"| == 6 && |"kind"| == 4;
  }

  /** What the api server appends for the applied operations of one POST. */
  function OpsFields(ops: string, userId: string): seq<string> {
    ["kind", "ops", "ops", ops, "userId", userId]
  }

  /** Streamed operations replay as the frame they were published in; text that does not parse yields nothing. */
  lemma OpsReplayedAsSent(id: StreamId, ops: string, userId: string, parses: string -> bool)
    ensures FrameOf(Entry(id, OpsFields(ops, userId)), parses) == if parses(ops) then Some(OpsFrame(ops, userId, id)) else None
  {
    var fields := OpsFields(ops, userId);
    var m0 := FieldsUpTo(fields, 0);
    var m2 := FieldsUpTo(fields, 2);
    assert m0 == map[] && m2 == m0["kind" := "ops"];
    var m4 := FieldsUpTo(fields, 4);
    assert m4 == m2["ops" := ops];
    assert FieldsMap(fields) == m4["userId" := userId];
    assert |"ops"| == 3 && |"userId"| == 6 && |"kind"| == 4 && |"crdt"| == 4;
  }

  /**
   * Append, then broadcast to the local room, then publish.  Nothing happens for an invalid
   * delta or when the append fails; a failing publish undoes nothing.
   */
  method HandleCrdt(redis: StreamLog, rooms: RoomRegistry, bus: Bus, instanceId: string, ws: Socket, doc: nat, userId: string,
                    blockId: string, delta: string, validDelta: string -> bool, clock: nat, up: bool, busUp: bool)
    requires Increasing(redis.entries)
    modifies redis, bus, Members(rooms.View(), doc)`sent
    ensures Increasing(redis.entries)
    ensures !(validDelta(delta) && up) ==>
              && redis.entries == old(redis.entries) && bus.published == old(bus.published)
              && forall s :: s in Members(rooms.View(), doc) ==> s.sent == old(s.sent)
    ensures validDelta(delta) && up ==>
              && |redis.entries| == |old(redis.entries)| + 1
              && var e := redis.entries[|old(redis.entries)|];
                 var frame := CrdtFrame(blockId, delta, userId, e.id);
                 && redis.entries == old(redis.entries) + [e]
                 && e.fields == CrdtFields(blockId, delta, userId)
                 && bus.published == old(bus.published) + (if busUp then [Envelope(instanceId, Some(frame))] else [])
                 && forall s :: s in Members(rooms.View(), doc) ==>
                      s.sent == old(s.sent) + if s != ws && s.open then [frame] else []
  {
    if !validDelta(delta) {
      return;
    }
    var streamId := redis.XAdd(CrdtFields(blockId, delta, userId), clock, up);
    if streamId.None? {
      return;
    }
    var frame := CrdtFrame(blockId, delta, userId, streamId.value);
    rooms.BroadcastLocal(doc, frame, ws);
    bus.Publish(Envelope(instanceId, Some(frame)), busUp);
  }

  /** Frames of this instance are dropped, they went out locally; all others go to every open member. */
  method OnBusMessage(instanceId: string, rooms: RoomRegistry, doc: nat, env: Envelope)
    modifies Members(rooms.View(), doc)`sent
    ensures forall s :: s in Members(rooms.View(), doc) ==>
              s.sent == old(s.sent) +
                if s.open && env.frame.Some? && (env.origin == "" || env.origin != instanceId) then [env.frame.value] else []
  {
    if env.origin != "" && env.origin == instanceId {
      return;
    }
    if env.frame.None? {
      return;
    }
    rooms.BroadcastLocal(doc, env.frame.value, null);
  }
}
