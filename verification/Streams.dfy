/** Redis stream ids and the retained part of an append-only log. */
module Streams {
  /** An id `<ms>-<seq>`. */
  datatype StreamId = StreamId(ms: nat, seqNo: nat)

  const ZERO := StreamId(0, 0)

  predicate Precedes(a: StreamId, b: StreamId) {
    a.ms < b.ms || (a.ms == b.ms && a.seqNo < b.seqNo)
  }

  /** The three-way comparison of apps/ws/src/replay.ts. */
  function Compare(a: StreamId, b: StreamId): int {
    if a.ms != b.ms then if a.ms < b.ms then -1 else 1
    else if a.seqNo != b.seqNo then if a.seqNo < b.seqNo then -1 else 1
    else 0
  }

  /** The comparison of apps/api/app/consumer/worker.py on (ms, seq) pairs. */
  predicate AtMost(a: StreamId, b: StreamId) {
    a == b || Precedes(a, b)
  }

  /** An entry with its flat field list. */
  datatype Entry = Entry(id: StreamId, fields: seq<string>)

  /** XADD hands out strictly increasing ids. */
  predicate Increasing(log: seq<Entry>) {
    forall i, j :: 0 <= i < j < |log| ==> Precedes(log[i].id, log[j].id)
  }

  /** XRANGE from the exclusive bound `c` to the end. */
  function Above(log: seq<Entry>, c: StreamId): seq<Entry> {
    if log == [] then []
    else Above(log[..|log| - 1], c) + if Precedes(c, log[|log| - 1].id) then [log[|log| - 1]] else []
  }

  /** MAXLEN keeps a suffix that is empty only for an empty log. */
  predicate Retains(log: seq<Entry>, trimmed: nat) {
    trimmed <= |log| && (log != [] ==> trimmed < |log|)
  }

  lemma {:induction false} AboveConcat(a: seq<Entry>, b: seq<Entry>, c: StreamId)
    ensures Above(a + b, c) == Above(a, c) + Above(b, c)
  {
    if b == [] {
      assert a + b == a;
    } else {
      assert (a + b)[..|a + b| - 1] == a + b[..|b| - 1];
      AboveConcat(a, b[..|b| - 1], c);
    }
  }

  lemma {:induction false} AboveNone(log: seq<Entry>, c: StreamId)
    requires forall i :: 0 <= i < |log| ==> !Precedes(c, log[i].id)
    ensures Above(log, c) == []
  {
    if log != [] {
      AboveNone(log[..|log| - 1], c);
    }
  }

  lemma {:induction false} AboveAll(log: seq<Entry>, c: StreamId)
    requires forall i :: 0 <= i < |log| ==> Precedes(c, log[i].id)
    ensures Above(log, c) == log
  {
    if log != [] {
      AboveAll(log[..|log| - 1], c);
      assert log == log[..|log| - 1] + [log[|log| - 1]];
    }
  }

  /** XRANGE returns exactly the entries above the bound. */
  lemma {:induction false} AboveMembers(log: seq<Entry>, c: StreamId, e: Entry)
    ensures e in Above(log, c) <==> e in log && Precedes(c, e.id)
  {
    if log != [] {
      AboveMembers(log[..|log| - 1], c, e);
      assert log == log[..|log| - 1] + [log[|log| - 1]];
    }
  }
}
