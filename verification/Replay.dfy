/** Catching a reconnecting socket up from the stream: apps/ws/src/replay.ts. */
module Replay {
  import opened Wrappers
  import opened Streams

  datatype Frame =
    | CrdtFrame(blockId: string, delta: string, userId: string, streamId: StreamId)
    | OpsFrame(ops: string, userId: string, streamId: StreamId)
    | ReplayDone(streamId: StreamId)
    | ReloadRequired

  /** A WebSocket: whether it is open and what was sent on it. */
  class Socket {
    var open: bool
    var sent: seq<Frame>

    constructor ()
      ensures open && sent == []
    {
      open, sent := true, [];
    }

    /** Frames for a socket that is no longer open are dropped. */
    method Send(frame: Frame)
      modifies this`sent
      ensures sent == old(sent) + if open then [frame] else []
    {
      if open {
        sent := sent + [frame];
      }
    }

    method Close()
      modifies this`open
      ensures !open
    {
      open := false;
    }
  }

  // ------------------------------------------------------------ specification

  /** The first `n` elements of a flat key-value list as a map; a later pair wins. */
  function FieldsUpTo(fields: seq<string>, n: nat): map<string, string>
    requires n <= |fields|
  {
    if n < 2 then map[] else FieldsUpTo(fields, n - 2)[fields[n - 2] := fields[n - 1]]
  }

  /** A trailing key without value is ignored. */
  function FieldsMap(fields: seq<string>): map<string, string> {
    FieldsUpTo(fields, |fields| - |fields| % 2)
  }

  function Get(m: map<string, string>, k: string, default: string): string {
    if k in m then m[k] else default
  }

  predicate IsCrdt(m: map<string, string>) {
    Get(m, "kind", "") == "crdt"
  }

  /** A crdt entry without block id or delta; it is skipped without moving the cursor. */
  predicate IsMalformed(m: map<string, string>) {
    IsCrdt(m) && (Get(m, "blockId", "") == "" || Get(m, "delta", "") == "")
  }

  /** The frame for an entry, if it yields one; `parses` tells which texts are JSON. */
  function FrameOf(e: Entry, parses: string -> bool): Option<Frame> {
    var m := FieldsMap(e.fields);
    var userId := Get(m, "userId", "0");
    if IsCrdt(m) then
      if IsMalformed(m) then None else Some(CrdtFrame(m["blockId"], m["delta"], userId, e.id))
    else if Get(m, "kind", "") == "ops" && parses(Get(m, "ops", "[]")) then
      Some(OpsFrame(Get(m, "ops", "[]"), userId, e.id))
    else None
  }

  function FramesOf(es: seq<Entry>, parses: string -> bool): seq<Frame> {
    if es == [] then []
    else
      var last := FrameOf(es[|es| - 1], parses);
      FramesOf(es[..|es| - 1], parses) + if last.Some? then [last.value] else []
  }

  /** The entry is passed over without moving the cursor. */
  predicate Skips(e: Entry) {
    IsMalformed(FieldsMap(e.fields))
  }

  /** The cursor after sending `es`: the last entry that is not malformed. */
  function CursorAfter(es: seq<Entry>, since: StreamId): StreamId {
    if es == [] then since
    else if Skips(es[|es| - 1]) then CursorAfter(es[..|es| - 1], since)
    else es[|es| - 1].id
  }

  /** What XINFO STREAM tells: it fails on a missing stream, and otherwise names the first entry, if any. */
  datatype StreamInfo = Missing | First(id: Option<StreamId>)

  predicate TrimDetected(info: StreamInfo, since: StreamId) {
    since != ZERO && info.First? && info.id.Some? && Compare(info.id.value, since) > 0
  }

  datatype ReplayResult = ReplayResult(trimmed: bool, lastStreamId: StreamId, framesSent: nat)

  // ----------------------------------------------------------------- programs

  method ComputeFieldsMap(fields: seq<string>) returns (out: map<string, string>)
    ensures out == FieldsMap(fields)
  {
    out := map[];
    var i := 0;
    while i + 1 < |fields|
      invariant i <= |fields| && i % 2 == 0 && out == FieldsUpTo(fields, i)
    {
      out := out[fields[i] := fields[i + 1]];
      i := i + 2;
    }
  }

  /** What one turn of the replay loop does to the frames sent, their number and the cursor. */
  lemma ReplayTurn(es: seq<Entry>, i: nat, since: StreamId, parses: string -> bool, open: bool, was: seq<Frame>)
    requires i < |es|
    ensures var before, now, f := FramesOf(es[..i], parses), FramesOf(es[..i + 1], parses), FrameOf(es[i], parses);
            && was + (if open then now else []) == was + (if open then before else []) + (if open && f.Some? then [f.value] else [])
            && |now| == |before| + (if f.Some? then 1 else 0)
            && CursorAfter(es[..i + 1], since) == if Skips(es[i]) then CursorAfter(es[..i], since) else es[i].id
  {
    assert es[..i + 1][..i] == es[..i];
  }

  /** One turn of the replay loop: the frame for an entry, and whether the cursor moves. */
  method SendEntry(ws: Socket, entry: Entry, parses: string -> bool) returns (sent: bool, moves: bool)
    modifies ws`sent
    ensures sent == FrameOf(entry, parses).Some? && moves == !Skips(entry)
    ensures forall f :: Stands(entry, f, parses) ==> ws.sent == old(ws.sent) + if ws.open then [f] else []
    ensures (forall f :: !Stands(entry, f, parses)) ==> !sent && ws.sent == old(ws.sent)
    ensures ws.sent == old(ws.sent) + if ws.open && sent then [FrameOf(entry, parses).value] else []
  {
    StandsForOne(entry, parses);
    var m := ComputeFieldsMap(entry.fields);
    var userId := Get(m, "userId", "0");
    if IsCrdt(m) {
      var blockId, delta := Get(m, "blockId", ""), Get(m, "delta", "");
      if blockId == "" || delta == "" {
        return false, false;
      }
      ws.Send(CrdtFrame(blockId, delta, userId, entry.id));
      return true, true;
    }
    if Get(m, "kind", "") == "ops" {
      var ops := Get(m, "ops", "[]");
      if parses(ops) {
        ws.Send(OpsFrame(ops, userId, entry.id));
        return true, true;
      }
    }
    return false, true;
  }

  /** `info` is the answer to XINFO, `log` the stream as XRANGE finds it afterwards. */
  method RunReplay(since: StreamId, info: StreamInfo, log: seq<Entry>, ws: Socket, parses: string -> bool)
    returns (r: ReplayResult)
    modifies ws
    ensures TrimDetected(info, since) ==>
              && r == ReplayResult(true, since, 0) && !ws.open
              && ws.sent == old(ws.sent) + if old(ws.open) then [ReloadRequired] else []
    ensures !TrimDetected(info, since) ==>
              var es := Above(log, since);
              && r == ReplayResult(false, CursorAfter(es, since), |FramesOf(es, parses)|)
              && ws.open == old(ws.open)
              && ws.sent == old(ws.sent) +
                   if ws.open then FramesOf(es, parses) + [ReplayDone(r.lastStreamId)] else []
  {
    if since != ZERO && info.First? && info.id.Some? && Compare(info.id.value, since) > 0 {
      ws.Send(ReloadRequired);
      ws.Close();
      return ReplayResult(true, since, 0);
    }
    var entries := Above(log, since);
    var lastStreamId := since;
    var framesSent := 0;
    for i := 0 to |entries|
      invariant ws.open == old(ws.open)
      invariant lastStreamId == CursorAfter(entries[..i], since)
      invariant framesSent == |FramesOf(entries[..i], parses)|
      invariant ws.sent == old(ws.sent) + if ws.open then FramesOf(entries[..i], parses) else []
    {
      ReplayTurn(entries, i, since, parses, ws.open, old(ws.sent));
      var sent, moves := SendEntry(ws, entries[i], parses);
      if sent {
        framesSent := framesSent + 1;
      }
      if moves {
        lastStreamId := entries[i].id;
      }
    }
    assert entries[..|entries|] == entries;
    ws.Send(ReplayDone(lastStreamId));
    r := ReplayResult(false, lastStreamId, framesSent);
  }

  // --------------------------------------------------------------- properties

  /** `Compare` decides the order of ids and is its own mirror image. */
  lemma CompareDecides(a: StreamId, b: StreamId)
    ensures Compare(a, b) < 0 <==> Precedes(a, b)
    ensures Compare(a, b) == 0 <==> a == b
    ensures Compare(a, b) == -Compare(b, a)
  {
  }

  /** `v` is the value of the last pair with key `k`. */
  predicate LastPair(fields: seq<string>, k: string, v: string) {
    exists i :: 0 <= i < |fields| / 2 && fields[2 * i] == k && fields[2 * i + 1] == v && NoLaterPair(fields, k, i)
  }

  predicate NoLaterPair(fields: seq<string>, k: string, i: int) {
    forall j :: 0 <= j && i < j < |fields| / 2 ==> fields[2 * j] != k
  }

  /** Each key has the value of its last pair, and there are no other keys. */
  lemma FieldsMapIff(fields: seq<string>, k: string, v: string)
    ensures (k in FieldsMap(fields) && FieldsMap(fields)[k] == v) <==> LastPair(fields, k, v)
  {
    assert |fields| - |fields| % 2 == 2 * (|fields| / 2);
    UpToIff(fields, |fields| / 2, k, v);
  }

  predicate LastPairUpTo(fields: seq<string>, n: nat, k: string, v: string)
    requires 2 * n <= |fields|
  {
    exists i :: 0 <= i < n && fields[2 * i] == k && fields[2 * i + 1] == v && forall j :: i < j < n ==> fields[2 * j] != k
  }

  lemma {:induction false} UpToIff(fields: seq<string>, n: nat, k: string, v: string)
    requires 2 * n <= |fields|
    ensures (k in FieldsUpTo(fields, 2 * n) && FieldsUpTo(fields, 2 * n)[k] == v) <==> LastPairUpTo(fields, n, k, v)
  {
    if n > 0 {
      UpToIff(fields, n - 1, k, v);
      if LastPairUpTo(fields, n - 1, k, v) && fields[2 * (n - 1)] != k {
        var i :| 0 <= i < n - 1 && fields[2 * i] == k && fields[2 * i + 1] == v && forall j :: i < j < n - 1 ==> fields[2 * j] != k;
        assert forall j :: i < j < n ==> fields[2 * j] != k;
      }
    }
  }

  /** The frame a well-formed entry stands for, told by its fields. */
  predicate Stands(e: Entry, f: Frame, parses: string -> bool) {
    var m := FieldsMap(e.fields);
    var userId := if "userId" in m then m["userId"] else "0";
    var ops := if "ops" in m then m["ops"] else "[]";
    "kind" in m &&
      if m["kind"] == "crdt" then
        && "blockId" in m && m["blockId"] != "" && "delta" in m && m["delta"] != ""
        && f == CrdtFrame(m["blockId"], m["delta"], userId, e.id)
      else m["kind"] == "ops" && parses(ops) && f == OpsFrame(ops, userId, e.id)
  }

  /** Deltas with block and delta, and operations that parse, yield their frames; nothing else yields any. */
  lemma FrameIff(e: Entry, parses: string -> bool, f: Frame)
    ensures FrameOf(e, parses) == Some(f) <==> Stands(e, f, parses)
  {
  }

  lemma StandsForOne(e: Entry, parses: string -> bool)
    ensures FrameOf(e, parses).Some? ==> Stands(e, FrameOf(e, parses).value, parses)
    ensures forall f :: Stands(e, f, parses) ==> FrameOf(e, parses) == Some(f)
  {
    forall f | Stands(e, f, parses)
      ensures FrameOf(e, parses) == Some(f)
    {
      FrameIff(e, parses, f);
    }
  }

  /** The replay moves on past everything but a delta without block or text. */
  lemma SkipsIff(e: Entry)
    ensures var m := FieldsMap(e.fields);
            Skips(e) <==>
              && "kind" in m && m["kind"] == "crdt"
              && !("blockId" in m && m["blockId"] != "" && "delta" in m && m["delta"] != "")
  {
  }

  /** The cursor ends at the last entry that is no delta without block or text; with none it stays. */
  lemma {:induction false} CursorIs(es: seq<Entry>, since: StreamId, i: nat)
    requires i <= |es| && forall j :: i <= j < |es| ==> Skips(es[j])
    requires i > 0 ==> !Skips(es[i - 1])
    ensures CursorAfter(es, since) == if i == 0 then since else es[i - 1].id
  {
    if i < |es| {
      CursorIs(es[..|es| - 1], since, i);
    }
  }

  lemma {:induction false} FramesConcat(a: seq<Entry>, b: seq<Entry>, parses: string -> bool)
    ensures FramesOf(a + b, parses) == FramesOf(a, parses) + FramesOf(b, parses)
  {
    if b == [] {
      assert a + b == a;
    } else {
      assert (a + b)[..|a + b| - 1] == a + b[..|b| - 1];
      FramesConcat(a, b[..|b| - 1], parses);
    }
  }

  /** The id XINFO reports for the part of `history` that is retained. */
  function FirstRetained(history: seq<Entry>, trimmed: nat): StreamInfo
    requires trimmed <= |history|
  {
    First(if trimmed < |history| then Some(history[trimmed].id) else None)
  }

  /**
   * A replay that reads the retained suffix sends every frame above the cursor exactly
   * when no frame above the cursor was trimmed.
   */
  lemma ReplayCompleteIff(history: seq<Entry>, trimmed: nat, since: StreamId, parses: string -> bool)
    requires trimmed <= |history|
    ensures FramesOf(Above(history[..trimmed], since), parses) == [] <==>
              FramesOf(Above(history[trimmed..], since), parses) == FramesOf(Above(history, since), parses)
  {
    assert history == history[..trimmed] + history[trimmed..];
    AboveConcat(history[..trimmed], history[trimmed..], since);
    FramesConcat(Above(history[..trimmed], since), Above(history[trimmed..], since), parses);
  }

  lemma TrimmedAreSeen(atInfo: seq<Entry>, atRange: seq<Entry>, trimmed: nat, since: StreamId)
    requires Increasing(atRange) && atInfo <= atRange && Retains(atInfo, trimmed)
    requires since != ZERO && !TrimDetected(FirstRetained(atInfo, trimmed), since)
    ensures forall i :: 0 <= i < trimmed ==> !Precedes(since, atRange[..trimmed][i].id)
  {
    if trimmed > 0 {
      assert atInfo[trimmed] == atRange[trimmed];
      CompareDecides(since, atInfo[trimmed].id);
      forall i | 0 <= i < trimmed
        ensures !Precedes(since, atRange[..trimmed][i].id)
      {
        assert Precedes(atRange[i].id, atRange[trimmed].id);
      }
    }
  }

  /**
   * With retention keeping a suffix and no trim between the two reads, an untrimmed replay
   * from a cursor other than 0-0 sends every frame above the cursor, also those whose
   * entries were appended between the reads.
   */
  lemma UntrimmedIsGapFree(atInfo: seq<Entry>, atRange: seq<Entry>, trimmed: nat, since: StreamId, parses: string -> bool)
    requires Increasing(atRange) && atInfo <= atRange && Retains(atInfo, trimmed)
    requires since != ZERO && !TrimDetected(FirstRetained(atInfo, trimmed), since)
    ensures Above(atRange[trimmed..], since) == Above(atRange, since)
    ensures FramesOf(Above(atRange[trimmed..], since), parses) == FramesOf(Above(atRange, since), parses)
  {
    TrimmedAreSeen(atInfo, atRange, trimmed, since);
    AboveNone(atRange[..trimmed], since);
    assert atRange == atRange[..trimmed] + atRange[trimmed..];
    AboveConcat(atRange[..trimmed], atRange[trimmed..], since);
  }

  /** Exactly the entries up to the cursor have been trimmed. */
  predicate TrimmedUpTo(history: seq<Entry>, trimmed: nat, since: StreamId) {
    forall i :: 0 <= i < |history| ==> (i < trimmed <==> AtMost(history[i].id, since))
  }

  /**
   * A reload is demanded needlessly, no entry above the cursor being trimmed, exactly if
   * the entries up to the cursor and no others were; the replay would have been complete.
   */
  lemma NeedlessReloadIff(history: seq<Entry>, trimmed: nat, since: StreamId, parses: string -> bool)
    requires Increasing(history) && trimmed < |history| && since != ZERO
    ensures TrimDetected(FirstRetained(history, trimmed), since) && Above(history[..trimmed], since) == [] <==>
              TrimmedUpTo(history, trimmed, since)
    ensures TrimmedUpTo(history, trimmed, since) ==>
              FramesOf(Above(history[trimmed..], since), parses) == FramesOf(Above(history, since), parses)
  {
    CompareDecides(history[trimmed].id, since);
    if TrimDetected(FirstRetained(history, trimmed), since) && Above(history[..trimmed], since) == [] {
      forall i | 0 <= i < |history|
        ensures i < trimmed <==> AtMost(history[i].id, since)
      {
        AboveMembers(history[..trimmed], since, history[i]);
        CompareDecides(history[i].id, since);
        if i < trimmed {
          assert history[..trimmed][i] == history[i];
        } else if i > trimmed {
          assert Precedes(history[trimmed].id, history[i].id);
        }
      }
    }
    if TrimmedUpTo(history, trimmed, since) {
      assert forall i :: 0 <= i < trimmed ==> AtMost(history[i].id, since);
      AboveNone(history[..trimmed], since);
      ReplayCompleteIff(history, trimmed, since, parses);
    }
  }

  /** The cursor 0-0 is never answered with a reload, and then a trimmed frame is lost silently. */
  lemma SentinelLosesTrimmed(parses: string -> bool)
    ensures var fields := ["kind", "crdt", "blockId", "b", "delta", "d"];
            var history := [Entry(StreamId(1, 0), fields), Entry(StreamId(2, 0), fields)];
            && Increasing(history) && Retains(history, 1)
            && !TrimDetected(FirstRetained(history, 1), ZERO)
            && FramesOf(Above(history[1..], ZERO), parses) != FramesOf(Above(history, ZERO), parses)
  {
    var fields := ["kind", "crdt", "blockId", "b", "delta", "d"];
    var history := [Entry(StreamId(1, 0), fields), Entry(StreamId(2, 0), fields)];
    var m := FieldsMap(fields);
    assert FieldsUpTo(fields, 2) == map["kind" := "crdt"];
    assert FieldsUpTo(fields, 4) == map["kind" := "crdt", "blockId" := "b"];
    assert m == map["kind" := "crdt", "blockId" := "b", "delta" := "d"];
    assert Get(m, "blockId", "") == "b" && Get(m, "delta", "") == "d";
    assert FrameOf(history[0], parses).Some?;
    assert history[..1] == [history[0]];
    AboveAll(history[..1], ZERO);
    ReplayCompleteIff(history, 1, ZERO, parses);
  }

  predicate CarriesEntry(f: Frame) {
    f.CrdtFrame? || f.OpsFrame?
  }

  /** The frame carries an entry with an id up to `id`. */
  predicate CarriesUpTo(f: Frame, id: StreamId) {
    CarriesEntry(f) && AtMost(f.streamId, id)
  }

  predicate InIdOrder(f: Frame, g: Frame) {
    CarriesEntry(f) && CarriesEntry(g) && Precedes(f.streamId, g.streamId)
  }

  predicate FramesOrdered(fs: seq<Frame>) {
    forall i, j :: 0 <= i < j < |fs| ==> InIdOrder(fs[i], fs[j])
  }

  predicate AllUpTo(fs: seq<Frame>, id: StreamId) {
    forall i :: 0 <= i < |fs| ==> CarriesUpTo(fs[i], id)
  }

  lemma OrderedNext(fs: seq<Frame>, f: Frame, previous: StreamId)
    requires FramesOrdered(fs) && AllUpTo(fs, previous)
    requires CarriesEntry(f) && Precedes(previous, f.streamId)
    ensures FramesOrdered(fs + [f]) && AllUpTo(fs + [f], f.streamId)
  {
    forall i | 0 <= i < |fs|
      ensures InIdOrder(fs[i], f)
    {
      assert CarriesUpTo(fs[i], previous);
    }
  }

  lemma FrameCarriesId(e: Entry, parses: string -> bool)
    ensures FrameOf(e, parses).Some? ==> CarriesEntry(FrameOf(e, parses).value) && FrameOf(e, parses).value.streamId == e.id
  {
  }

  lemma OneFrameNext(fs: seq<Frame>, f: Option<Frame>, previous: StreamId, id: StreamId)
    requires FramesOrdered(fs) && AllUpTo(fs, previous) && Precedes(previous, id)
    requires f.Some? ==> CarriesEntry(f.value) && f.value.streamId == id
    ensures var fs' := fs + if f.Some? then [f.value] else []; FramesOrdered(fs') && AllUpTo(fs', id)
  {
    if f.Some? {
      OrderedNext(fs, f.value, previous);
    } else {
      assert fs + [] == fs;
      forall i | 0 <= i < |fs|
        ensures CarriesUpTo(fs[i], id)
      {
        assert CarriesUpTo(fs[i], previous);
      }
    }
  }

  /** The frames come in strictly increasing id order, none beyond the last entry. */
  lemma {:induction false} FramesInOrder(es: seq<Entry>, parses: string -> bool)
    requires Increasing(es)
    ensures FramesOrdered(FramesOf(es, parses))
    ensures if es == [] then FramesOf(es, parses) == [] else AllUpTo(FramesOf(es, parses), es[|es| - 1].id)
  {
    if es != [] {
      var before, last := es[..|es| - 1], es[|es| - 1];
      FramesInOrder(before, parses);
      var gs, f := FramesOf(before, parses), FrameOf(last, parses);
      FrameCarriesId(last, parses);
      if before == [] {
        assert FramesOf(es, parses) == if f.Some? then [f.value] else [];
      } else {
        var previous := before[|before| - 1].id;
        assert Precedes(previous, last.id);
        OneFrameNext(gs, f, previous, last.id);
      }
    }
  }

  lemma {:induction false} FramesAreYielded(es: seq<Entry>, parses: string -> bool, f: Frame)
    ensures f in FramesOf(es, parses) <==> exists e :: e in es && FrameOf(e, parses) == Some(f)
  {
    if es != [] {
      var before, last := es[..|es| - 1], es[|es| - 1];
      FramesAreYielded(before, parses, f);
      assert es == before + [last];
      if FrameOf(last, parses) == Some(f) {
        assert last in es;
      }
    }
  }

  /** A frame is sent exactly when the fields of an entry above the cursor stand for it. */
  lemma FramesAreThoseOfEntries(es: seq<Entry>, parses: string -> bool, f: Frame)
    ensures f in FramesOf(es, parses) <==> exists e :: e in es && Stands(e, f, parses)
  {
    FramesAreYielded(es, parses, f);
    forall e
      ensures FrameOf(e, parses) == Some(f) <==> Stands(e, f, parses)
    {
      FrameIff(e, parses, f);
    }
  }

  lemma SkippedYieldsNothing(e: Entry, parses: string -> bool)
    requires Skips(e)
    ensures FrameOf(e, parses) == None
  {
  }

  /** XRANGE on a log with one more entry. */
  lemma AboveNext(log: seq<Entry>, since: StreamId)
    requires Increasing(log) && log != []
    ensures var before, last := log[..|log| - 1], log[|log| - 1];
            && Increasing(before)
            && (Precedes(since, last.id) ==> Above(log, since) == Above(before, since) + [last])
            && (!Precedes(since, last.id) ==> Above(log, since) == [] == Above(before, since))
            && Above(log, last.id) == []
  {
    var before, last := log[..|log| - 1], log[|log| - 1];
    assert forall i :: 0 <= i < |before| ==> before[i] == log[i] && Precedes(log[i].id, last.id);
    AboveNone(log, last.id);
    if !Precedes(since, last.id) {
      AboveNone(before, since);
      AboveNone(log, since);
    }
  }

  lemma CursorNext(es: seq<Entry>, e: Entry, since: StreamId)
    ensures CursorAfter(es + [e], since) == if Skips(e) then CursorAfter(es, since) else e.id
  {
    assert (es + [e])[..|es|] == es;
  }

  /** Above the returned cursor the replayed log holds nothing that yields a frame. */
  lemma {:induction false} NothingBehindCursor(log: seq<Entry>, since: StreamId, parses: string -> bool)
    requires Increasing(log)
    ensures var c := CursorAfter(Above(log, since), since);
            && FramesOf(Above(log, c), parses) == []
            && AtMost(since, c)
            && (c != since ==> exists i :: 0 <= i < |log| && log[i].id == c)
  {
    if log != [] {
      var before, last := log[..|log| - 1], log[|log| - 1];
      AboveNext(log, since);
      NothingBehindCursor(before, since, parses);
      if Precedes(since, last.id) {
        CursorNext(Above(before, since), last, since);
        if Skips(last) {
          var c := CursorAfter(Above(before, since), since);
          SkippedYieldsNothing(last, parses);
          AboveNext(log, c);
          FramesConcat(Above(before, c), [last], parses);
          assert FramesOf([last], parses) == [] by {
            assert [last][..0] == [];
          }
        }
      }
    }
  }

  /** Entries appended later are above the returned cursor exactly when they are above the original one. */
  lemma AddedAboveBoth(log: seq<Entry>, added: seq<Entry>, since: StreamId, parses: string -> bool)
    requires Increasing(log + added)
    ensures var c := CursorAfter(Above(log, since), since); Above(added, c) == Above(added, since)
  {
    var c := CursorAfter(Above(log, since), since);
    assert forall i :: 0 <= i < |log| ==> (log + added)[i] == log[i];
    assert forall j :: 0 <= j < |added| ==> (log + added)[|log| + j] == added[j];
    assert Increasing(log);
    NothingBehindCursor(log, since, parses);
    if c != since {
      var i :| 0 <= i < |log| && log[i].id == c;
      forall j | 0 <= j < |added|
        ensures Precedes(c, added[j].id) && Precedes(since, added[j].id)
      {
        assert Precedes((log + added)[i].id, (log + added)[|log| + j].id);
      }
      AboveAll(added, since);
      AboveAll(added, c);
    }
  }

  /** A later replay from the returned cursor completes the earlier one: together they are one replay from the original cursor. */
  lemma ReplayResumes(log: seq<Entry>, added: seq<Entry>, since: StreamId, parses: string -> bool)
    requires Increasing(log + added)
    ensures var c := CursorAfter(Above(log, since), since);
            && FramesOf(Above(log, since), parses) + FramesOf(Above(log + added, c), parses)
                 == FramesOf(Above(log + added, since), parses)
            && CursorAfter(Above(log + added, c), c) == CursorAfter(Above(log + added, since), since)
  {
    var c := CursorAfter(Above(log, since), since);
    AddedAboveBoth(log, added, since, parses);
    PrefixIncreases(log, added);
    AboveConcat(log, added, since);
    AboveConcat(log, added, c);
    FramesResume(log, added, since, c, parses);
    CursorResumes(log, added, since, c);
  }

  lemma PrefixIncreases(log: seq<Entry>, added: seq<Entry>)
    requires Increasing(log + added)
    ensures Increasing(log)
  {
    assert forall i :: 0 <= i < |log| ==> (log + added)[i] == log[i];
  }

  lemma FramesResume(log: seq<Entry>, added: seq<Entry>, since: StreamId, c: StreamId, parses: string -> bool)
    requires Increasing(log) && c == CursorAfter(Above(log, since), since) && Above(added, since) == Above(added, c)
    ensures FramesOf(Above(log, since), parses) + FramesOf(Above(log, c) + Above(added, c), parses)
              == FramesOf(Above(log, since) + Above(added, since), parses)
  {
    NothingBehindCursor(log, since, parses);
    FramesConcat(Above(log, since), Above(added, since), parses);
    FramesConcat(Above(log, c), Above(added, c), parses);
    NoneBetween(FramesOf(Above(log, since), parses), FramesOf(Above(log, c), parses), FramesOf(Above(added, c), parses));
  }

  lemma NoneBetween(before: seq<Frame>, between: seq<Frame>, after: seq<Frame>)
    requires between == []
    ensures before + (between + after) == before + after
  {
  }

  lemma CursorResumes(log: seq<Entry>, added: seq<Entry>, since: StreamId, c: StreamId)
    requires Increasing(log) && c == CursorAfter(Above(log, since), since) && Above(added, since) == Above(added, c)
    ensures CursorAfter(Above(log, c) + Above(added, c), c) == CursorAfter(Above(log, since) + Above(added, since), since)
  {
    CursorConcat(Above(log, since), Above(added, since), since);
    CursorConcat(Above(log, c), Above(added, c), c);
    CursorStays(log, since);
  }

  lemma {:induction false} CursorConcat(a: seq<Entry>, b: seq<Entry>, since: StreamId)
    ensures CursorAfter(a + b, since) == CursorAfter(b, CursorAfter(a, since))
  {
    if b == [] {
      assert a + b == a;
    } else {
      assert (a + b)[..|a + b| - 1] == a + b[..|b| - 1];
      CursorConcat(a, b[..|b| - 1], since);
    }
  }

  /** Replaying the same log from the returned cursor does not move it. */
  lemma {:induction false} CursorStays(log: seq<Entry>, since: StreamId)
    requires Increasing(log)
    ensures var c := CursorAfter(Above(log, since), since); CursorAfter(Above(log, c), c) == c
  {
    if log != [] {
      var before, last := log[..|log| - 1], log[|log| - 1];
      AboveNext(log, since);
      CursorStays(before, since);
      if Precedes(since, last.id) {
        CursorNext(Above(before, since), last, since);
        if Skips(last) {
          var c := CursorAfter(Above(before, since), since);
          AboveNext(log, c);
          CursorNext(Above(before, c), last, c);
        }
      }
    }
  }
}
