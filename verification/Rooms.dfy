/** Rooms and the subscription commands they issue: apps/ws/src/room.ts. */
module Rooms {
  import opened Replay

  datatype Command = Subscribe(doc: nat) | Unsubscribe(doc: nat)

  /** The rooms of one instance, the commands not yet executed by Redis, and the channels subscribed there. */
  datatype Registry<!S> = Registry(rooms: map<nat, set<S>>, queue: seq<Command>, channels: set<nat>)

  function Members<S>(r: Registry<S>, doc: nat): set<S> {
    if doc in r.rooms then r.rooms[doc] else {}
  }

  /** Joining an empty room issues a SUBSCRIBE. */
  function JoinStep<S>(r: Registry<S>, doc: nat, s: S): Registry<S> {
    r.(rooms := r.rooms[doc := Members(r, doc) + {s}],
       queue := if Members(r, doc) == {} then r.queue + [Subscribe(doc)] else r.queue)
  }

  /** Leaving a room as its last member removes it and issues an UNSUBSCRIBE. */
  function LeaveStep<S>(r: Registry<S>, doc: nat, s: S): Registry<S> {
    if doc !in r.rooms then r
    else if r.rooms[doc] - {s} == {} then r.(rooms := r.rooms - {doc}, queue := r.queue + [Unsubscribe(doc)])
    else r.(rooms := r.rooms[doc := r.rooms[doc] - {s}])
  }

  function Execute(channels: set<nat>, c: Command): set<nat> {
    match c
    case Subscribe(doc) => channels + {doc}
    case Unsubscribe(doc) => channels - {doc}
  }

  function ExecuteAll(channels: set<nat>, queue: seq<Command>): set<nat>
    decreases queue
  {
    if queue == [] then channels else ExecuteAll(Execute(channels, queue[0]), queue[1..])
  }

  /** The socket is in, nobody else's membership changes, and a SUBSCRIBE is issued iff nobody was in. */
  lemma JoinIs<S>(r: Registry<S>, doc: nat, s: S, other: nat)
    ensures var r' := JoinStep(r, doc, s);
            && Members(r', other) == (if other == doc then Members(r, doc) + {s} else Members(r, other))
            && r'.queue == (if Members(r, doc) == {} then r.queue + [Subscribe(doc)] else r.queue) && r'.channels == r.channels
  {
  }

  /** The socket is out, and an UNSUBSCRIBE is issued iff the room has no other member. */
  lemma LeaveIs<S>(r: Registry<S>, doc: nat, s: S, other: nat)
    ensures var r' := LeaveStep(r, doc, s);
            && Members(r', other) == (if other == doc then Members(r, doc) - {s} else Members(r, other))
            && r'.queue == (if doc in r.rooms && forall x :: x in r.rooms[doc] ==> x == s then r.queue + [Unsubscribe(doc)] else r.queue)
            && r'.channels == r.channels
  {
    if doc in r.rooms {
      if r.rooms[doc] - {s} != {} {
        var x :| x in r.rooms[doc] - {s};
        assert x in r.rooms[doc] && x != s;
      } else {
        forall x | x in r.rooms[doc]
          ensures x == s
        {
          assert x !in r.rooms[doc] - {s};
        }
      }
    }
  }

  /** Redis executes the oldest outstanding command. */
  function ExecuteStep<S>(r: Registry<S>): Registry<S> {
    if r.queue == [] then r else r.(channels := Execute(r.channels, r.queue[0]), queue := r.queue[1..])
  }

  /** The oldest outstanding command is rejected. */
  function FailStep<S>(r: Registry<S>): Registry<S> {
    if r.queue == [] then r else r.(queue := r.queue[1..])
  }

  /** No room is empty, and the outstanding commands lead to a subscription for exactly the documents with a room. */
  ghost predicate LifecycleOk<S>(r: Registry<S>) {
    && (forall doc :: doc in r.rooms ==> r.rooms[doc] != {})
    && ExecuteAll(r.channels, r.queue) == r.rooms.Keys
  }

  lemma {:induction false} ExecuteAllNext(channels: set<nat>, queue: seq<Command>, c: Command)
    ensures ExecuteAll(channels, queue + [c]) == Execute(ExecuteAll(channels, queue), c)
    decreases queue
  {
    if queue != [] {
      assert (queue + [c])[1..] == queue[1..] + [c];
      ExecuteAllNext(Execute(channels, queue[0]), queue[1..], c);
    } else {
      assert [c][1..] == [];
    }
  }

  lemma JoinKeepsLifecycle<S>(r: Registry<S>, doc: nat, s: S)
    requires LifecycleOk(r)
    ensures LifecycleOk(JoinStep(r, doc, s))
  {
    ExecuteAllNext(r.channels, r.queue, Subscribe(doc));
    assert s in JoinStep(r, doc, s).rooms[doc];
  }

  lemma LeaveKeepsLifecycle<S>(r: Registry<S>, doc: nat, s: S)
    requires LifecycleOk(r)
    ensures LifecycleOk(LeaveStep(r, doc, s))
  {
    ExecuteAllNext(r.channels, r.queue, Unsubscribe(doc));
  }

  lemma ExecuteKeepsLifecycle<S>(r: Registry<S>)
    requires LifecycleOk(r)
    ensures LifecycleOk(ExecuteStep(r))
  {
  }

  lemma {:induction false} ExecuteAllDiffers(channels: set<nat>, others: set<nat>, queue: seq<Command>, doc: nat)
    requires forall d :: d != doc ==> (d in channels <==> d in others)
    ensures var a, b := ExecuteAll(channels, queue), ExecuteAll(others, queue);
            && (forall d :: d != doc ==> (d in a <==> d in b))
            && (a == b <==> channels == others || exists i :: 0 <= i < |queue| && queue[i].doc == doc)
    decreases queue
  {
    if queue != [] {
      var c, rest := queue[0], queue[1..];
      ExecuteAllDiffers(Execute(channels, c), Execute(others, c), rest, doc);
      if i :| 0 <= i < |queue| && queue[i].doc == doc && i > 0 {
        assert rest[i - 1] == queue[i];
      }
      if i :| 0 <= i < |rest| && rest[i].doc == doc {
        assert queue[i + 1] == rest[i];
      }
      if c.doc == doc {
        assert Execute(channels, c) == Execute(others, c);
        assert queue[0].doc == doc;
      } else {
        assert doc in Execute(channels, c) <==> doc in channels;
        assert doc in Execute(others, c) <==> doc in others;
      }
    }
    assert channels == others <==> (doc in channels <==> doc in others);
  }

  /** A failed command leaves the lifecycle right exactly if it would have changed nothing, or a later one decides about its document. */
  lemma FailKeepsLifecycleIff<S>(r: Registry<S>)
    requires LifecycleOk(r) && r.queue != []
    ensures LifecycleOk(FailStep(r)) <==>
              || Execute(r.channels, r.queue[0]) == r.channels
              || exists i :: 0 < i < |r.queue| && r.queue[i].doc == r.queue[0].doc
  {
    var c, rest := r.queue[0], r.queue[1..];
    ExecuteAllDiffers(r.channels, Execute(r.channels, c), rest, c.doc);
    if i :| 0 < i < |r.queue| && r.queue[i].doc == c.doc {
      assert rest[i - 1] == r.queue[i];
    }
    if i :| 0 <= i < |rest| && rest[i].doc == c.doc {
      assert r.queue[i + 1] == rest[i];
    }
  }

  datatype RoomEvent<!S> = Joins(doc: nat, s: S) | Leaves(doc: nat, s: S) | Executes

  function EventStep<S>(r: Registry<S>, e: RoomEvent<S>): Registry<S> {
    match e
    case Joins(doc, s) => JoinStep(r, doc, s)
    case Leaves(doc, s) => LeaveStep(r, doc, s)
    case Executes => ExecuteStep(r)
  }

  function RunEvents<S>(events: seq<RoomEvent<S>>): Registry<S> {
    if events == [] then Registry(map[], [], {})
    else EventStep(RunEvents(events[..|events| - 1]), events[|events| - 1])
  }

  /** Any interleaving of joins, leaves and executed commands keeps the lifecycle right. */
  lemma {:induction false} LifecycleOverRuns<S>(events: seq<RoomEvent<S>>)
    ensures LifecycleOk(RunEvents(events))
  {
    if events != [] {
      var before := events[..|events| - 1];
      LifecycleOverRuns(before);
      var r := RunEvents(before);
      match events[|events| - 1]
      case Joins(doc, s) => JoinKeepsLifecycle(r, doc, s);
      case Leaves(doc, s) => LeaveKeepsLifecycle(r, doc, s);
      case Executes => ExecuteKeepsLifecycle(r);
    }
  }

  /** Once all commands are executed, exactly the documents with a room are subscribed. */
  lemma DrainedIsSubscribed<S>(events: seq<RoomEvent<S>>)
    requires RunEvents(events).queue == []
    ensures RunEvents(events).channels == RunEvents(events).rooms.Keys
  {
    LifecycleOverRuns(events);
  }

  // ----------------------------------------------------------------- programs

  /** The shared connection that holds the subscriptions of an instance. */
  class Subscriber {
    var queue: seq<Command>
    var channels: set<nat>

    constructor ()
      ensures queue == [] && channels == {}
    {
      queue, channels := [], {};
    }

    method Issue(c: Command)
      modifies this`queue
      ensures queue == old(queue) + [c]
    {
      queue := queue + [c];
    }
  }

  class RoomRegistry {
    var rooms: map<nat, set<Socket>>
    const subscriber: Subscriber

    constructor (subscriber: Subscriber)
      ensures this.subscriber == subscriber && rooms == map[]
    {
      this.subscriber := subscriber;
      rooms := map[];
    }

    ghost function View(): Registry<Socket>
      reads this, subscriber
    {
      Registry(rooms, subscriber.queue, subscriber.channels)
    }

    method Join(doc: nat, ws: Socket)
      modifies this`rooms, subscriber`queue
      ensures View() == JoinStep(old(View()), doc, ws)
    {
      var members := if doc in rooms then rooms[doc] else {};
      var wasEmpty := members == {};
      rooms := rooms[doc := members + {ws}];
      if wasEmpty {
        subscriber.Issue(Subscribe(doc));
      }
    }

    method Leave(doc: nat, ws: Socket)
      modifies this`rooms, subscriber`queue
      ensures View() == LeaveStep(old(View()), doc, ws)
    {
      if doc !in rooms {
        return;
      }
      var members := rooms[doc] - {ws};
      rooms := rooms[doc := members];
      if members == {} {
        rooms := rooms - {doc};
        subscriber.Issue(Unsubscribe(doc));
      }
      assert rooms == LeaveStep(old(View()), doc, ws).rooms;
    }

    /** Every open member except `except` gets the frame once; nothing else is sent. */
    method BroadcastLocal(doc: nat, frame: Frame, except: Socket?)
      modifies (if doc in rooms then rooms[doc] else {})`sent
      ensures forall s :: s in Members(View(), doc) ==>
                s.sent == old(s.sent) + if s != except && s.open then [frame] else []
    {
      if doc !in rooms {
        return;
      }
      var todo := rooms[doc];
      while todo != {}
        invariant todo <= rooms[doc]
        invariant forall s :: s in rooms[doc] && s !in todo ==>
                    s.sent == old(s.sent) + if s != except && s.open then [frame] else []
        invariant forall s :: s in todo ==> s.sent == old(s.sent)
      {
        var ws :| ws in todo;
        todo := todo - {ws};
        if ws != except && ws.open {
          ws.Send(frame);
        }
      }
    }
  }
}
