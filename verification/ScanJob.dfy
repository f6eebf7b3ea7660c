/** The coroutines of one scan job as they run: each method is a whole critical section of the
    source, executed step by step on the job's fields, and recorded as a run of `DeliveryHub`. */
module ScanJobObject {
  import opened DeliveryHub

  /** How the awaited store write ends. */
  datatype Persistence = Stored | StoreRaised | StoreCancelled

  datatype SendOutcome = Sent | SendRaised | SendCancelled

  class ScanJob {
    const durable: bool
    var sequence: nat
    var events: seq<Event>
    var subscribers: set<Socket>
    var persistenceFailed: bool
    ghost var trace: seq<Step>

    /** The hub this job is, as its recorded run says. */
    ghost function View(): Hub
      reads this
      requires Legal(durable, trace)
    {
      Run(durable, trace)
    }

    ghost predicate Agrees()
      reads this
    {
      && Legal(durable, trace)
      && View().sequence == sequence && View().events == events && View().durable == durable
      && View().subscribers == subscribers && View().persistenceFailed == persistenceFailed
    }

    ghost predicate Valid()
      reads this
    {
      Agrees() && View().lock.Free?
    }

    constructor (durable: bool)
      ensures Valid() && this.durable == durable && trace == []
    {
      this.durable := durable;
      sequence, events, subscribers, persistenceFailed, trace := 0, [], {}, false, [];
    }

    ghost method Record(step: Step)
      requires Legal(durable, trace) && Enabled(View(), step)
      modifies `trace
      ensures trace == old(trace) + [step] && Legal(durable, trace)
      ensures View() == Apply(old(View()), step)
    {
      RunExtends(durable, trace, step);
      trace := trace + [step];
    }

    /** `send_json`: stamp, persist, append, then serve every subscriber of that moment. */
    method SendJson(body: string, persistence: Persistence, reply: Socket -> Reply)
      returns (outcome: SendOutcome)
      requires Valid()
      modifies this
      ensures Valid() && old(trace) < trace
      ensures sequence == old(sequence) + 1
      ensures outcome.SendRaised? <==> durable && persistence.StoreRaised?
      ensures persistenceFailed == (old(persistenceFailed) || outcome.SendRaised?)
      ensures durable && !persistence.Stored? ==>
                events == old(events) && subscribers == old(subscribers) && View().history == old(View().history)
      ensures !durable || persistence.Stored? ==>
                && View().history == old(View().history) + [Event(sequence, body)]
                && events == Push(old(events), Event(sequence, body))
      ensures outcome.Sent? ==> subscribers == set s | s in old(subscribers) && reply(s).Delivered?
      ensures outcome.Sent? ==> forall s :: s in old(subscribers) ==> !reply(s).Cancelled?
    {
      sequence := sequence + 1;
      var event := Event(sequence, body);
      Record(BeginSend(body));
      if durable {
        var stored := AwaitStore(event, persistence);
        if !stored { return if persistence.StoreRaised? then SendRaised else SendCancelled; }
      }
      events := Push(events, event);
      outcome := FanOut(event, reply);
    }

    /** The awaited store write; the flag is raised before the exception goes on. */
    method AwaitStore(event: Event, persistence: Persistence) returns (stored: bool)
      requires Agrees() && View().lock == Persisting(event)
      modifies `persistenceFailed, `trace
      ensures stored == persistence.Stored?
      ensures persistenceFailed == (old(persistenceFailed) || persistence.StoreRaised?)
      ensures old(trace) < trace && Legal(durable, trace)
      ensures stored ==> View() == Append(old(View()), event)
      ensures !stored ==> Valid() && View().history == old(View().history)
    {
      match persistence
      case StoreRaised =>
        persistenceFailed := true;
        Record(PersistRaised);
        return false;
      case StoreCancelled =>
        Record(PersistCancelled);
        return false;
      case Stored =>
        Record(Persisted);
        return true;
    }

    /** The loop over a copy of the subscriber set. */
    method FanOut(event: Event, reply: Socket -> Reply) returns (outcome: SendOutcome)
      requires Agrees()
      requires View().lock == if subscribers == {} then Free else Fanout(event, subscribers)
      modifies `subscribers, `trace
      ensures Valid() && old(trace) <= trace && !outcome.SendRaised?
      ensures View().history == old(View().history)
      ensures outcome.Sent? ==> subscribers == set s | s in old(subscribers) && reply(s).Delivered?
      ensures outcome.Sent? ==> forall s :: s in old(subscribers) ==> !reply(s).Cancelled?
    {
      var owed := subscribers;
      while owed != {}
        invariant owed <= old(subscribers) && Agrees() && old(trace) <= trace
        invariant View().lock == if owed == {} then Free else Fanout(event, owed)
        invariant View().history == old(View().history)
        invariant forall s :: s in subscribers <==> s in old(subscribers) && (s in owed || reply(s).Delivered?)
        invariant forall s :: s in old(subscribers) && reply(s).Cancelled? ==> s in owed
        decreases |owed|
      {
        var socket :| socket in owed;
        Serve(event, owed, socket, reply(socket));
        if reply(socket).Cancelled? { return SendCancelled; }
        owed := owed - {socket};
      }
      return Sent;
    }

    /** One awaited `socket.send_json`; a socket that refuses is dropped. */
    method Serve(event: Event, ghost owed: set<Socket>, socket: Socket, answer: Reply)
      requires Agrees() && View().lock == Fanout(event, owed) && socket in owed
      modifies `subscribers, `trace
      ensures Agrees() && old(trace) <= trace && View().history == old(View().history)
      ensures subscribers == if answer.Refused? then old(subscribers) - {socket} else old(subscribers)
      ensures View().lock ==
                if answer.Cancelled? || owed == {socket} then Free else Fanout(event, owed - {socket})
    {
      Record(SendTo(socket, answer));
      if answer.Refused? { subscribers := subscribers - {socket}; }
    }

    /** One awaited `socket.send_json` of the replay. */
    method ReplayNext(socket: Socket, ghost i: nat, answer: Reply)
      requires Agrees() && i < |events| && View().lock == Replaying(socket, events[i..])
      requires socket in View().sessions && View().sessions[socket].got == events[..i]
      modifies `trace
      ensures Agrees() && old(trace) < trace && View().history == old(View().history)
      ensures answer.Delivered? ==>
        && View().lock == Replaying(socket, events[i + 1..])
        && socket in View().sessions && View().sessions[socket].got == events[..i + 1]
      ensures !answer.Delivered? ==> View().lock == Free
    {
      assert events[..i + 1] == events[..i] + [events[i]] && events[i..][1..] == events[i + 1..];
      Record(Replay(answer));
    }

    /** Replay the retained log, up to the first send that is not delivered. */
    method ReplayAll(socket: Socket, answer: nat -> Reply) returns (done: bool)
      requires Agrees() && View().lock == Replaying(socket, events)
      requires socket in View().sessions && View().sessions[socket].got == []
      modifies `trace
      ensures Agrees() && old(trace) <= trace && View().history == old(View().history)
      ensures done <==> forall i :: 0 <= i < |events| ==> answer(i).Delivered?
      ensures done ==>
        View().lock == Replaying(socket, []) && socket in View().sessions && View().sessions[socket].got == events
      ensures !done ==> View().lock == Free
    {
      var i := 0;
      assert events[0..] == events && events[..0] == [];
      while i < |events|
        invariant 0 <= i <= |events| && Agrees() && old(trace) <= trace
        invariant View().history == old(View().history)
        invariant View().lock == Replaying(socket, events[i..])
        invariant socket in View().sessions && View().sessions[socket].got == events[..i]
        invariant forall k :: 0 <= k < i ==> answer(k).Delivered?
      {
        ReplayNext(socket, i, answer(i));
        if !answer(i).Delivered? { return false; }
        i := i + 1;
      }
      assert events[i..] == [] && events[..i] == events;
      return true;
    }

    /** `attach`: replay the retained log and the status, then subscribe. */
    method Attach(socket: Socket, answer: nat -> Reply, greeting: Reply) returns (joined: bool)
      requires Valid()
      modifies `subscribers, `trace
      ensures Valid() && old(trace) < trace
      ensures joined <==> (forall i :: 0 <= i < |events| ==> answer(i).Delivered?) && greeting.Delivered?
      ensures subscribers == if joined then old(subscribers) + {socket} else old(subscribers)
      ensures View().history == old(View().history)
      ensures joined ==> socket in View().sessions && View().sessions[socket].got == events
    {
      Record(BeginAttach(socket));
      var replayed := ReplayAll(socket, answer);
      if !replayed { return false; }
      Record(Greet(greeting));
      if !greeting.Delivered? { return false; }
      subscribers := subscribers + {socket};
      return true;
    }

    /** The handler of a closed websocket discards it without taking the lock. */
    method Discard(socket: Socket)
      requires Agrees()
      modifies `subscribers, `trace
      ensures Agrees() && subscribers == old(subscribers) - {socket}
      ensures trace == old(trace) + [Disconnect(socket)] && View().lock == old(View().lock)
    {
      Record(Disconnect(socket));
      subscribers := subscribers - {socket};
    }
  }
}
