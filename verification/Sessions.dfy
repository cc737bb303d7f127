/**
 * What a client misses across a reconnect, its cursor being the id of the last frame it got:
 * apps/web/src/lib/ws.ts with apps/ws/src/replay.ts.
 */
module Sessions {
  import opened Wrappers
  import opened Streams
  import opened Replay

  /** The cursor after the frames `fs`, live or replayed: the id of the last one, and none after a demand to reload. */
  function Cursor(since: StreamId, fs: seq<Frame>): Option<StreamId> {
    if fs == [] then Some(since)
    else if fs[|fs| - 1].ReloadRequired? then None
    else Some(fs[|fs| - 1].streamId)
  }

  /** Every frame with an id moves the cursor there, and a demand to reload drops it. */
  lemma CursorNext(since: StreamId, fs: seq<Frame>, f: Frame)
    ensures Cursor(since, []) == Some(since)
    ensures Cursor(since, fs + [f]) == match f
                                       case CrdtFrame(_, _, _, id) => Some(id)
                                       case OpsFrame(_, _, id) => Some(id)
                                       case ReplayDone(id) => Some(id)
                                       case ReloadRequired => None
  {
    assert (fs + [f])[|fs|] == f;
  }

  /** What the client has got after reconnecting with its cursor and being replayed the whole log. */
  function Received(log: seq<Entry>, c: StreamId, fs: seq<Frame>, parses: string -> bool): seq<Frame> {
    fs + FramesOf(Above(log, c), parses)
  }

  /** The entry is for the client: above its first cursor, and it yields a frame. */
  predicate IsWanted(log: seq<Entry>, since: StreamId, e: Entry, parses: string -> bool) {
    e in log && Precedes(since, e.id) && FrameOf(e, parses).Some?
  }

  /** A client without a cursor fetches the blocks anew and loses nothing. */
  predicate Lost(log: seq<Entry>, since: StreamId, fs: seq<Frame>, e: Entry, parses: string -> bool) {
    && IsWanted(log, since, e, parses) && Cursor(since, fs).Some?
    && FrameOf(e, parses).value !in Received(log, Cursor(since, fs).value, fs, parses)
  }

  predicate CursorCovers(since: StreamId, fs: seq<Frame>, id: StreamId) {
    Cursor(since, fs).Some? && AtMost(id, Cursor(since, fs).value)
  }

  /** The frame of an entry is replayed from a cursor exactly if the entry is above it. */
  lemma ReplayedIff(log: seq<Entry>, c: StreamId, e: Entry, parses: string -> bool)
    requires Increasing(log) && e in log && FrameOf(e, parses).Some?
    ensures FrameOf(e, parses).value in FramesOf(Above(log, c), parses) <==> Precedes(c, e.id)
  {
    var f := FrameOf(e, parses).value;
    FramesAreYielded(Above(log, c), parses, f);
    AboveMembers(log, c, e);
    FrameCarriesId(e, parses);
    if x :| x in Above(log, c) && FrameOf(x, parses) == Some(f) {
      FrameCarriesId(x, parses);
      AboveMembers(log, c, x);
    }
  }

  /** An entry is lost across the reconnect exactly if it was not received before and lies at or below the cursor. */
  lemma LostIff(log: seq<Entry>, since: StreamId, fs: seq<Frame>, e: Entry, parses: string -> bool)
    requires Increasing(log) && IsWanted(log, since, e, parses)
    ensures Lost(log, since, fs, e, parses) <==> FrameOf(e, parses).value !in fs && CursorCovers(since, fs, e.id)
  {
    if Cursor(since, fs).Some? {
      ReplayedIff(log, Cursor(since, fs).value, e, parses);
      CompareDecides(e.id, Cursor(since, fs).value);
      CompareDecides(Cursor(since, fs).value, e.id);
    }
  }

  /** What a replay of `seen` from `since` sends. */
  function Sent(seen: seq<Entry>, since: StreamId, parses: string -> bool): seq<Frame> {
    FramesOf(Above(seen, since), parses) + [ReplayDone(CursorAfter(Above(seen, since), since))]
  }

  /** A replay cut short anywhere, or completed, loses nothing, whatever is appended later: all frames up to the cursor were got. */
  lemma InterruptedReplayIsSafe(seen: seq<Entry>, log: seq<Entry>, since: StreamId, k: nat, e: Entry, parses: string -> bool)
    requires Increasing(log) && seen <= log && k <= |Sent(seen, since, parses)|
    ensures !Lost(log, since, Sent(seen, since, parses)[..k], e, parses)
  {
    var all := FramesOf(Above(seen, since), parses);
    var fs := Sent(seen, since, parses)[..k];
    if IsWanted(log, since, e, parses) && CursorCovers(since, fs, e.id) {
      NotBelowItself(since, e.id);
      if 0 < k <= |all| {
        assert fs == all[..k];
        UpToCursorIsReceived(seen, log, since, k, e, parses);
      } else if k > |all| {
        assert fs == Sent(seen, since, parses);
        CompletedIsReceived(seen, log, since, e, parses);
      }
    }
    if IsWanted(log, since, e, parses) {
      LostIff(log, since, fs, e, parses);
    }
  }

  lemma NotBelowItself(a: StreamId, b: StreamId)
    ensures !(Precedes(a, b) && AtMost(b, a))
  {
  }

  lemma {:induction false} AboveIncreases(log: seq<Entry>, c: StreamId)
    requires Increasing(log)
    ensures Increasing(Above(log, c)) && forall e :: e in Above(log, c) ==> e in log
  {
    if log != [] {
      var before, last := log[..|log| - 1], log[|log| - 1];
      AboveIncreases(before, c);
      assert forall e :: e in before ==> Precedes(e.id, last.id);
    }
  }

  lemma SeenFramesOrdered(seen: seq<Entry>, log: seq<Entry>, since: StreamId, parses: string -> bool)
    requires Increasing(log) && seen <= log
    ensures Increasing(seen) && FramesOrdered(FramesOf(Above(seen, since), parses))
    ensures forall f :: f in FramesOf(Above(seen, since), parses) ==> CarriesEntry(f)
  {
    assert seen == log[..|seen|];
    AboveIncreases(seen, since);
    FramesInOrder(Above(seen, since), parses);
    forall f | f in FramesOf(Above(seen, since), parses)
      ensures CarriesEntry(f)
    {
      FramesAreYielded(Above(seen, since), parses, f);
    }
  }

  lemma OrderedPair(fs: seq<Frame>, j: nat, i: nat)
    requires FramesOrdered(fs) && i < |fs| && j < |fs| && CarriesEntry(fs[i]) && CarriesEntry(fs[j])
    ensures j < i ==> Precedes(fs[j].streamId, fs[i].streamId)
  {
    if j < i {
      assert InIdOrder(fs[j], fs[i]);
    }
  }

  /** An entry at or below one that was seen was seen. */
  lemma WantedIsSeen(seen: seq<Entry>, log: seq<Entry>, x: Entry, e: Entry)
    requires Increasing(log) && seen <= log && x in seen && e in log && AtMost(e.id, x.id)
    ensures e in seen
  {
    var i :| 0 <= i < |seen| && seen[i] == x;
    var j :| 0 <= j < |log| && log[j] == e;
    if j > i {
      assert log[i] == x && Precedes(log[i].id, log[j].id);
      NotBelowItself(x.id, e.id);
    }
  }

  /** Of a replay in id order, everything wanted up to the last frame got was got. */
  lemma UpToCursorIsReceived(seen: seq<Entry>, log: seq<Entry>, since: StreamId, k: nat, e: Entry, parses: string -> bool)
    requires Increasing(log) && seen <= log && 0 < k <= |FramesOf(Above(seen, since), parses)|
    requires IsWanted(log, since, e, parses)
    requires CursorCovers(since, FramesOf(Above(seen, since), parses)[..k], e.id)
    ensures FrameOf(e, parses).value in FramesOf(Above(seen, since), parses)[..k]
  {
    var all := FramesOf(Above(seen, since), parses);
    SeenFramesOrdered(seen, log, since, parses);
    var x := SentIsSeen(seen, since, all[k - 1], parses);
    WantedIsSeen(seen, log, x, e);
    ReplayedIff(seen, since, e, parses);
    FrameCarriesId(e, parses);
    AtMostIsBefore(all, k, FrameOf(e, parses).value);
  }

  /** A frame of the replay comes from an entry that was seen. */
  lemma SentIsSeen(seen: seq<Entry>, since: StreamId, f: Frame, parses: string -> bool) returns (x: Entry)
    requires Increasing(seen) && f in FramesOf(Above(seen, since), parses)
    ensures x in seen && CarriesEntry(f) && f.streamId == x.id
  {
    FramesAreYielded(Above(seen, since), parses, f);
    x :| x in Above(seen, since) && FrameOf(x, parses) == Some(f);
    FrameCarriesId(x, parses);
    AboveMembers(seen, since, x);
  }

  lemma AtMostIsBefore(all: seq<Frame>, k: nat, f: Frame)
    requires FramesOrdered(all) && 0 < k <= |all| && f in all && CarriesEntry(f) && CarriesEntry(all[k - 1])
    requires AtMost(f.streamId, all[k - 1].streamId)
    ensures f in all[..k]
  {
    var i :| 0 <= i < |all| && all[i] == f;
    OrderedPair(all, k - 1, i);
    NotBelowItself(all[k - 1].streamId, f.streamId);
    assert all[..k][i] == f;
  }

  lemma CompletedIsReceived(seen: seq<Entry>, log: seq<Entry>, since: StreamId, e: Entry, parses: string -> bool)
    requires Increasing(log) && seen <= log && IsWanted(log, since, e, parses)
    requires AtMost(e.id, CursorAfter(Above(seen, since), since))
    ensures FrameOf(e, parses).value in FramesOf(Above(seen, since), parses)
  {
    assert seen == log[..|seen|];
    NothingBehindCursor(seen, since, parses);
    NotBelowItself(since, e.id);
    var x :| x in seen && x.id == CursorAfter(Above(seen, since), since);
    WantedIsSeen(seen, log, x, e);
    ReplayedIff(seen, since, e, parses);
  }
}
