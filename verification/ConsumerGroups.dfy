/** Redis streams with a consumer group, as apps/api/app/consumer/worker.py reads them. */
module ConsumerGroups {
  import opened Wrappers
  import opened Streams

  /** A stream with its consumer group: everything appended, and how much of it was handed out. */
  datatype GroupedStream = GroupedStream(log: seq<Entry>, delivered: nat)

  /** The documents' streams by key. */
  type StreamMap = map<string, GroupedStream>

  const READ_COUNT := 50

  predicate StreamsOk(streams: StreamMap) {
    forall k :: k in streams ==> streams[k].delivered <= |streams[k].log| && Increasing(streams[k].log)
  }

  function ReadTo(s: GroupedStream): nat {
    if s.delivered + READ_COUNT < |s.log| then s.delivered + READ_COUNT else |s.log|
  }

  /** What reading with `>` hands out next: entries never handed out before, at most READ_COUNT of them. */
  function NextEntries(s: GroupedStream): seq<Entry>
    requires s.delivered <= |s.log|
  {
    s.log[s.delivered..ReadTo(s)]
  }

  function HandedOut(streams: StreamMap, keys: set<string>): StreamMap {
    map k | k in streams :: if k in keys then streams[k].(delivered := ReadTo(streams[k])) else streams[k]
  }

  /** One stream's entries in a reply to XREADGROUP. */
  datatype StreamEntries = StreamEntries(key: string, entries: seq<Entry>)

  /** The reply for `keys`: every stream with something new once, in any order, with exactly its next entries. */
  ghost predicate IsReply(streams: StreamMap, keys: set<string>, reply: seq<StreamEntries>)
    requires StreamsOk(streams)
  {
    && (forall i :: 0 <= i < |reply| ==> IsNext(streams, keys, reply[i]))
    && (forall i, j :: 0 <= i < j < |reply| ==> reply[i].key != reply[j].key)
    && (forall k :: k in keys && k in streams && NextEntries(streams[k]) != [] ==> exists i :: 0 <= i < |reply| && reply[i].key == k)
  }

  predicate IsNext(streams: StreamMap, keys: set<string>, b: StreamEntries)
    requires StreamsOk(streams)
  {
    b.key in keys && b.key in streams && b.entries == NextEntries(streams[b.key]) && b.entries != []
  }

  class Redis {
    var streams: StreamMap

    constructor (streams: StreamMap)
      ensures this.streams == streams
    {
      this.streams := streams;
    }

    /** XREADGROUP with `>` for every key; an error, with nothing handed out, when one of the streams is gone. */
    method XReadGroup(keys: set<string>) returns (reply: Option<seq<StreamEntries>>)
      requires StreamsOk(streams)
      modifies this
      ensures StreamsOk(streams)
      ensures reply.Some? <==> keys <= old(streams).Keys
      ensures streams == if reply.Some? then HandedOut(old(streams), keys) else old(streams)
      ensures reply.Some? ==> IsReply(old(streams), keys, reply.value)
    {
      if !(keys <= streams.Keys) {
        return None;
      }
      var batches: seq<StreamEntries> := [];
      var todo := keys;
      while todo != {}
        invariant todo <= keys && streams == old(streams)
        invariant IsReply(streams, keys - todo, batches)
      {
        var k :| k in todo;
        var next := NextEntries(streams[k]);
        ReplyNext(streams, keys - todo, batches, k);
        assert keys - todo + {k} == keys - (todo - {k});
        if next != [] {
          batches := batches + [StreamEntries(k, next)];
        }
        todo := todo - {k};
      }
      assert keys - todo == keys;
      streams := HandedOut(streams, keys);
      return Some(batches);
    }
  }

  /** A read hands out the oldest entries not handed out yet, fifty of them or all there are, and the next read goes on behind them. */
  lemma ReadsInOrder(streams: StreamMap, keys: set<string>, k: string)
    requires StreamsOk(streams) && k in streams
    ensures var s, next := streams[k], NextEntries(streams[k]);
            && (|next| == 50 || (|next| < 50 && s.delivered + |next| == |s.log|))
            && (forall i :: 0 <= i < |next| ==> next[i] == s.log[s.delivered + i])
            && k in HandedOut(streams, keys) && HandedOut(streams, keys)[k].log == s.log
            && HandedOut(streams, keys)[k].delivered == s.delivered + if k in keys then |next| else 0
  {
  }

  lemma ReplyNext(streams: StreamMap, keys: set<string>, reply: seq<StreamEntries>, k: string)
    requires StreamsOk(streams) && IsReply(streams, keys, reply) && k !in keys && k in streams
    ensures var next := NextEntries(streams[k]);
            IsReply(streams, keys + {k}, if next != [] then reply + [StreamEntries(k, next)] else reply)
  {
    var next := NextEntries(streams[k]);
    var reply' := if next != [] then reply + [StreamEntries(k, next)] else reply;
    forall i | 0 <= i < |reply'|
      ensures IsNext(streams, keys + {k}, reply'[i])
    {
      assert i < |reply| ==> IsNext(streams, keys, reply[i]);
    }
    forall x | x in keys + {k} && x in streams && NextEntries(streams[x]) != []
      ensures exists i :: 0 <= i < |reply'| && reply'[i].key == x
    {
      if x == k {
        assert reply'[|reply|].key == x;
      } else {
        var i :| 0 <= i < |reply| && reply[i].key == x;
        assert reply'[i].key == x;
      }
    }
  }
}
