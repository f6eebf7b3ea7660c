/** The publish/replay hub of one scan job (`ScanJob` in scan_jobs.py).

    `send_json` and `attach` are coroutines that hold one lock across several awaits, while a
    socket can be discarded from outside at any moment.  Everything that happens between two
    awaits is one `Step`; a run of the hub is any sequence of enabled steps.  Besides the fields of
    the source a `Hub` value carries what an observer sees: every event ever appended, and for
    each socket what reached it since its latest `attach`. */
module DeliveryHub {

  // The `maxlen` of the event deque.
  const WINDOW: nat := 500

  type Socket = nat

  /** A payload stamped with its sequence number. */
  datatype Event = Event(number: nat, body: string)

  /** Who holds the delivery lock, and where that coroutine is suspended. */
  datatype Lock =
    | Free
    | Persisting(event: Event)                       // awaiting store.event
    | Fanout(current: Event, owed: set<Socket>)      // awaiting a subscriber's socket
    | Replaying(socket: Socket, rest: seq<Event>)    // awaiting the attaching socket

  /** What a socket has seen since its latest attach.  `since` counts the events appended before
      that attach, `entered` says that the socket was not subscribed when it attached, and
      `missed` that a sender was cancelled while it still owed this socket an event. */
  datatype Session = Session(
    retained: seq<Event>, since: nat, got: seq<Event>, entered: bool, missed: bool)

  datatype Hub = Hub(
    durable: bool, sequence: nat, events: seq<Event>, subscribers: set<Socket>,
    persistenceFailed: bool, lock: Lock,
    history: seq<Event>, lost: nat, sessions: map<Socket, Session>)

  /** How one awaited send to a socket ends.  A refused or cancelled send may still have reached
      the socket. */
  datatype Reply = Delivered | Refused(reached: bool) | Cancelled(reached: bool)

  datatype Step =
    | BeginSend(body: string)
    | Persisted
    | PersistRaised
    | PersistCancelled
    | SendTo(target: Socket, reply: Reply)
    | BeginAttach(joiner: Socket)
    | Replay(answer: Reply)
    | Greet(greeting: Reply)
    | Disconnect(gone: Socket)

  function LastN(s: seq<Event>, n: nat): seq<Event> {
    if |s| <= n then s else s[|s| - n..]
  }

  function Init(durable: bool): Hub {
    Hub(durable, 0, [], {}, false, Free, [], 0, map[])
  }

  predicate Enabled(h: Hub, step: Step) {
    match step
    case BeginSend(_) => h.lock.Free?
    case Persisted => h.lock.Persisting?
    case PersistRaised => h.lock.Persisting?
    case PersistCancelled => h.lock.Persisting?
    case SendTo(s, _) => h.lock.Fanout? && s in h.lock.owed
    case BeginAttach(_) => h.lock.Free?
    case Replay(_) => h.lock.Replaying? && h.lock.rest != []
    case Greet(_) => h.lock.Replaying? && h.lock.rest == []
    case Disconnect(_) => true
  }

  function Saw(h: Hub, s: Socket, e: Event): map<Socket, Session> {
    if s in h.sessions then h.sessions[s := h.sessions[s].(got := h.sessions[s].got + [e])] else h.sessions
  }

  /** The bounded deque's append. */
  function Push(events: seq<Event>, e: Event): seq<Event> {
    if |events| < WINDOW then events + [e] else events[1..] + [e]
  }

  function Append(h: Hub, e: Event): Hub {
    h.(events := Push(h.events, e), history := h.history + [e],
       lock := if h.subscribers == {} then Free else Fanout(e, h.subscribers))
  }

  /** The sessions of the sockets a cancelled sender leaves without the current event. */
  function Abandon(sessions: map<Socket, Session>, owed: set<Socket>): map<Socket, Session> {
    map s | s in sessions :: if s in owed then sessions[s].(missed := true) else sessions[s]
  }

  function AfterSend(h: Hub, s: Socket, reply: Reply): Hub
    requires h.lock.Fanout? && s in h.lock.owed
  {
    var rest := h.lock.owed - {s};
    var sessions := if reply.Delivered? || reply.reached then Saw(h, s, h.lock.current) else h.sessions;
    var next := if rest == {} then Free else h.lock.(owed := rest);
    match reply
    case Delivered => h.(sessions := sessions, lock := next)
    case Refused(_) => h.(sessions := sessions, lock := next, subscribers := h.subscribers - {s})
    case Cancelled(reached) =>
      h.(sessions := Abandon(sessions, if reached then rest else h.lock.owed), lock := Free)
  }

  function AfterStamp(h: Hub, body: string): Hub {
    var e := Event(h.sequence + 1, body);
    var stamped := h.(sequence := h.sequence + 1);
    if h.durable then stamped.(lock := Persisting(e)) else Append(stamped, e)
  }

  function AfterAttach(h: Hub, s: Socket): Hub {
    h.(lock := Replaying(s, h.events),
       sessions := h.sessions[s := Session(h.events, |h.history|, [], s !in h.subscribers, false)])
  }

  function AfterReplay(h: Hub, answer: Reply): Hub
    requires h.lock.Replaying? && h.lock.rest != []
  {
    var sessions := if answer.Delivered? || answer.reached
                    then Saw(h, h.lock.socket, h.lock.rest[0]) else h.sessions;
    h.(sessions := sessions, lock := if answer.Delivered? then h.lock.(rest := h.lock.rest[1..]) else Free)
  }

  function Apply(h: Hub, step: Step): Hub
    requires Enabled(h, step)
  {
    match step
    case BeginSend(body) => AfterStamp(h, body)
    case Persisted => Append(h, h.lock.event)
    case PersistRaised => h.(persistenceFailed := true, lock := Free, lost := h.lost + 1)
    case PersistCancelled => h.(lock := Free, lost := h.lost + 1)
    case SendTo(s, reply) => AfterSend(h, s, reply)
    case BeginAttach(s) => AfterAttach(h, s)
    case Replay(answer) => AfterReplay(h, answer)
    case Greet(greeting) =>
      h.(lock := Free,
         subscribers := if greeting.Delivered? then h.subscribers + {h.lock.socket} else h.subscribers)
    case Disconnect(s) => h.(subscribers := h.subscribers - {s})
  }

  predicate Legal(durable: bool, steps: seq<Step>)
    decreases |steps|, 0
  {
    steps == [] ||
    var n := |steps| - 1;
    Legal(durable, steps[..n]) && Enabled(Run(durable, steps[..n]), steps[n])
  }

  /** The hub after a run from its initial state. */
  function Run(durable: bool, steps: seq<Step>): Hub
    requires Legal(durable, steps)
    decreases |steps|, 1
  {
    if steps == [] then Init(durable)
    else
      var n := |steps| - 1;
      Apply(Run(durable, steps[..n]), steps[n])
  }

  lemma RunExtends(durable: bool, steps: seq<Step>, step: Step)
    requires Legal(durable, steps) && Enabled(Run(durable, steps), step)
    ensures Legal(durable, steps + [step])
    ensures Run(durable, steps + [step]) == Apply(Run(durable, steps), step)
  {
    assert (steps + [step])[..|steps|] == steps;
  }

  // ---------- what every run keeps ----------

  ghost predicate Increasing(s: seq<Event>) {
    forall i, j :: 0 <= i < j < |s| ==> s[i].number < s[j].number
  }

  ghost predicate Below(s: seq<Event>, bound: int) {
    forall e :: e in s ==> e.number <= bound
  }

  /** The sender holding the lock still has to serve socket `s`. */
  ghost predicate Owed(h: Hub, s: Socket) {
    h.lock.Fanout? && s in h.lock.owed
  }

  /** Everything a socket ought to have once no sender holds the lock: the log retained when it
      attached, then all that was appended since. */
  ghost function Due(h: Hub, x: Session): seq<Event>
    requires x.since <= |h.history|
  {
    x.retained + h.history[x.since..]
  }

  ghost function DueNow(h: Hub, s: Socket, x: Session): seq<Event>
    requires x.since <= |h.history| && (Owed(h, s) ==> x.since < |h.history|)
  {
    if Owed(h, s) then x.retained + h.history[x.since..|h.history| - 1] else Due(h, x)
  }

  ghost predicate LogOk(h: Hub) {
    && h.events == LastN(h.history, WINDOW)
    && Increasing(h.history)
    && Below(h.history, if h.lock.Persisting? then h.sequence - 1 else h.sequence)
    && (h.lock.Persisting? ==> h.lock.event.number == h.sequence && h.sequence > 0)
    && (h.lock.Fanout? ==> h.history != [] && h.lock.current == h.history[|h.history| - 1])
    && (h.lock.Fanout? ==> h.lock.owed != {} && h.lock.current.number == h.sequence)
    && h.sequence == |h.history| + h.lost + (if h.lock.Persisting? then 1 else 0)
    && (h.persistenceFailed ==> h.lost > 0)
  }

  ghost predicate SessionOk(h: Hub, s: Socket, x: Session) {
    && x.since <= |h.history|
    && x.retained == LastN(h.history[..x.since], WINDOW)
    && Increasing(x.got)
    && Below(x.got, if h.lock.Persisting? || Owed(h, s) then h.sequence - 1 else h.sequence)
    && (Owed(h, s) ==> x.since < |h.history|)
    && (forall e :: e in x.got ==> e in Due(h, x))
    && (h.lock.Replaying? && h.lock.socket == s ==>
          x.got + h.lock.rest == x.retained && x.since == |h.history| && !x.missed)
    && (x.entered && !x.missed ==> x.got <= Due(h, x))
    && (x.entered && (s in h.subscribers || Owed(h, s)) ==>
          if x.missed then |x.got| < |DueNow(h, s, x)| else x.got == DueNow(h, s, x))
  }

  /** Every socket the hub knows has attached. */
  ghost predicate Known(h: Hub) {
    && h.subscribers <= h.sessions.Keys
    && (h.lock.Fanout? ==> h.lock.owed <= h.sessions.Keys)
    && (h.lock.Replaying? ==> h.lock.socket in h.sessions)
  }

  ghost predicate SessionsOk(h: Hub) {
    forall s :: s in h.sessions ==> SessionOk(h, s, h.sessions[s])
  }

  ghost predicate Inv(h: Hub) {
    LogOk(h) && Known(h) && SessionsOk(h)
  }

  // The three lemmas below say how one event, one retained window and one unchanged log move a
  // session along.

  lemma AppendKeepsSession(h: Hub, s: Socket, x: Session)
    requires LogOk(h) && h.lock.Persisting? && SessionOk(h, s, x)
    ensures SessionOk(Append(h, h.lock.event), s, x)
  {
    var e := h.lock.event;
    var next := Append(h, e);
    assert next.history[..x.since] == h.history[..x.since];
    assert next.history[x.since..] == h.history[x.since..] + [e];
    assert next.history[x.since..|next.history| - 1] == h.history[x.since..];
    assert Due(next, x) == Due(h, x) + [e];
  }

  lemma ReceiveKeepsSession(h: Hub, s: Socket, x: Session, next: Hub)
    requires LogOk(h) && h.lock.Fanout? && s in h.lock.owed && SessionOk(h, s, x)
    requires next.history == h.history && next.sequence == h.sequence
    requires next.lock.Free? || (next.lock.Fanout? && s !in next.lock.owed)
    ensures SessionOk(next, s, x.(got := x.got + [h.lock.current]))
  {
    var got := x.got + [h.lock.current];
    var n := |h.history|;
    assert h.history[x.since..] == h.history[x.since..n - 1] + [h.history[n - 1]];
    assert Due(h, x) == DueNow(h, s, x) + [h.lock.current];
    assert Increasing(got);
  }

  /** The current event does not reach a socket it was owed to: either the socket is dropped, or
      the sender was cancelled. */
  lemma ForgoKeepsSession(h: Hub, s: Socket, x: Session, next: Hub)
    requires LogOk(h) && h.lock.Fanout? && s in h.lock.owed && SessionOk(h, s, x)
    requires next.history == h.history && next.sequence == h.sequence
    requires next.lock.Free? || (next.lock.Fanout? && s !in next.lock.owed)
    ensures SessionOk(next, s, x.(missed := true))
    ensures s !in next.subscribers ==> SessionOk(next, s, x)
  {
    var n := |h.history|;
    assert h.history[x.since..] == h.history[x.since..n - 1] + [h.history[n - 1]];
    assert Due(h, x) == DueNow(h, s, x) + [h.lock.current];
  }

  lemma IdleKeepsSession(h: Hub, s: Socket, x: Session, next: Hub)
    requires LogOk(h) && SessionOk(h, s, x)
    requires next.history == h.history && next.sequence >= h.sequence
    requires Owed(h, s) == Owed(next, s)
    requires Owed(h, s) ==> next.sequence == h.sequence
    requires s in next.subscribers ==> s in h.subscribers
    requires next.lock.Persisting? ==> next.sequence > h.sequence || h.lock.Persisting?
    requires next.lock.Replaying? && next.lock.socket == s ==> h.lock == next.lock
    ensures SessionOk(next, s, x)
  {
    assert DueNow(next, s, x) == DueNow(h, s, x);
  }

  lemma AppendKeepsLog(h: Hub)
    requires LogOk(h) && h.lock.Persisting?
    ensures LogOk(Append(h, h.lock.event))
  {
    assert Append(h, h.lock.event).events == LastN(h.history + [h.lock.event], WINDOW);
  }

  lemma SendKeepsSession(h: Hub, s: Socket, reply: Reply, t: Socket)
    requires LogOk(h) && h.lock.Fanout? && s in h.lock.owed
    requires t in h.sessions && SessionOk(h, t, h.sessions[t])
    ensures SessionOk(AfterSend(h, s, reply), t, AfterSend(h, s, reply).sessions[t])
  {
    var next := AfterSend(h, s, reply);
    var x := h.sessions[t];
    var seen := t == s && (reply.Delivered? || reply.reached);
    if seen {
      ReceiveKeepsSession(h, t, x, next);
      assert next.sessions[t] == x.(got := x.got + [h.lock.current]);
    } else if t in h.lock.owed && (reply.Cancelled? || t == s) {
      ForgoKeepsSession(h, t, x, next);
      assert next.sessions[t] == if reply.Cancelled? then x.(missed := true) else x;
    } else {
      IdleKeepsSession(h, t, x, next);
      assert next.sessions[t] == x;
    }
  }

  lemma SendKeepsLog(h: Hub, s: Socket, reply: Reply)
    requires LogOk(h) && h.lock.Fanout? && s in h.lock.owed
    ensures LogOk(AfterSend(h, s, reply))
  {
  }

  lemma SendKeepsSessions(h: Hub, s: Socket, reply: Reply)
    requires LogOk(h) && h.lock.Fanout? && s in h.lock.owed && SessionsOk(h)
    ensures SessionsOk(AfterSend(h, s, reply))
  {
    var next := AfterSend(h, s, reply);
    forall t | t in next.sessions ensures SessionOk(next, t, next.sessions[t]) {
      SendKeepsSession(h, s, reply, t);
    }
  }

  lemma SendKeepsInv(h: Hub, s: Socket, reply: Reply)
    requires Inv(h) && h.lock.Fanout? && s in h.lock.owed
    ensures Inv(AfterSend(h, s, reply))
  {
    SendKeepsLog(h, s, reply);
    SendKeepsSessions(h, s, reply);
    assert Known(AfterSend(h, s, reply));
  }

  lemma WindowIsOrdered(history: seq<Event>, retained: seq<Event>)
    requires Increasing(history) && retained == LastN(history, WINDOW)
    ensures Increasing(retained) && forall e :: e in retained ==> e in history
  {
  }

  lemma PrefixIsOrdered(s: seq<Event>, prefix: seq<Event>)
    requires Increasing(s) && prefix <= s
    ensures Increasing(prefix) && forall e :: e in prefix ==> e in s
  {
  }

  /** The socket being replayed to sees the next retained event, or the replay ends there. */
  lemma ReplayKeepsSession(h: Hub, x: Session, next: Hub)
    requires LogOk(h) && h.lock.Replaying? && h.lock.rest != [] && SessionOk(h, h.lock.socket, x)
    requires h.lock.socket !in h.subscribers || !x.entered
    requires next.history == h.history && next.sequence == h.sequence && next.subscribers == h.subscribers
    requires next.lock == Free || next.lock == Replaying(h.lock.socket, h.lock.rest[1..])
    ensures SessionOk(next, h.lock.socket, x.(got := x.got + [h.lock.rest[0]]))
  {
    var got := x.got + [h.lock.rest[0]];
    assert h.history[..|h.history|] == h.history;
    assert x.retained == LastN(h.history, WINDOW);
    assert got + h.lock.rest[1..] == x.retained;
    WindowIsOrdered(h.history, x.retained);
    PrefixIsOrdered(x.retained, got);
    assert Due(h, x) == x.retained == Due(next, x);
  }

  lemma ReplayKeepsInv(h: Hub, answer: Reply)
    requires Inv(h) && h.lock.Replaying? && h.lock.rest != []
    ensures Inv(AfterReplay(h, answer))
  {
    var next := AfterReplay(h, answer);
    forall t | t in next.sessions ensures SessionOk(next, t, next.sessions[t]) {
      if t == h.lock.socket && (answer.Delivered? || answer.reached) { ReplayKeepsSession(h, h.sessions[t], next); }
      else { IdleKeepsSession(h, t, h.sessions[t], next); }
    }
  }

  lemma PersistedKeepsInv(h: Hub)
    requires Inv(h) && h.lock.Persisting?
    ensures Inv(Append(h, h.lock.event))
  {
    var next := Append(h, h.lock.event);
    AppendKeepsLog(h);
    forall t | t in h.sessions ensures SessionOk(next, t, h.sessions[t]) {
      AppendKeepsSession(h, t, h.sessions[t]);
    }
  }

  /** Without a store the event is appended at once, as if it had been persisted in no time. */
  lemma StampKeepsInv(h: Hub, body: string)
    requires Inv(h) && h.lock.Free?
    ensures Inv(AfterStamp(h, body))
  {
    var e := Event(h.sequence + 1, body);
    var waiting := h.(sequence := h.sequence + 1, lock := Persisting(e));
    forall t | t in h.sessions ensures SessionOk(waiting, t, h.sessions[t]) {
      IdleKeepsSession(h, t, h.sessions[t], waiting);
    }
    if !h.durable {
      PersistedKeepsInv(waiting);
      assert AfterStamp(h, body) == Append(waiting, e);
    }
  }

  lemma AttachKeepsInv(h: Hub, s: Socket)
    requires Inv(h) && h.lock.Free?
    ensures Inv(AfterAttach(h, s))
  {
    var next := AfterAttach(h, s);
    assert h.history[..|h.history|] == h.history;
    forall t | t in next.sessions ensures SessionOk(next, t, next.sessions[t]) {
      if t != s { IdleKeepsSession(h, t, h.sessions[t], next); }
    }
  }

  lemma GreetKeepsInv(h: Hub, greeting: Reply)
    requires Inv(h) && h.lock.Replaying? && h.lock.rest == []
    ensures Inv(Apply(h, Greet(greeting)))
  {
    var next := Apply(h, Greet(greeting));
    forall t | t in next.sessions ensures SessionOk(next, t, next.sessions[t]) {
      if t != h.lock.socket { IdleKeepsSession(h, t, h.sessions[t], next); }
    }
  }

  /** A persist that raises or is cancelled, and a discarded socket, touch no session. */
  lemma QuietStepKeepsInv(h: Hub, step: Step)
    requires Inv(h) && Enabled(h, step) && (step.PersistRaised? || step.PersistCancelled? || step.Disconnect?)
    ensures Inv(Apply(h, step))
  {
    var next := Apply(h, step);
    forall t | t in next.sessions ensures SessionOk(next, t, next.sessions[t]) {
      IdleKeepsSession(h, t, h.sessions[t], next);
    }
  }

  lemma StepKeepsInv(h: Hub, step: Step)
    requires Inv(h) && Enabled(h, step)
    ensures Inv(Apply(h, step))
  {
    match step
    case SendTo(s, reply) => SendKeepsInv(h, s, reply);
    case Replay(answer) => ReplayKeepsInv(h, answer);
    case BeginSend(body) => StampKeepsInv(h, body);
    case Persisted => PersistedKeepsInv(h);
    case BeginAttach(s) => AttachKeepsInv(h, s);
    case Greet(greeting) => GreetKeepsInv(h, greeting);
    case _ => QuietStepKeepsInv(h, step);
  }

  lemma {:induction false} RunKeepsInv(durable: bool, steps: seq<Step>)
    requires Legal(durable, steps)
    ensures Inv(Run(durable, steps))
    decreases |steps|
  {
    if steps != [] {
      RunKeepsInv(durable, steps[..|steps| - 1]);
      StepKeepsInv(Run(durable, steps[..|steps| - 1]), steps[|steps| - 1]);
    }
  }

  // ---------- who is subscribed ----------

  /** At step k the attach of the socket came to its end, and the greeting was delivered. */
  ghost predicate GreetedAt(durable: bool, steps: seq<Step>, s: Socket, k: nat) {
    && k < |steps| && steps[k].Greet? && steps[k].greeting.Delivered? && Legal(durable, steps[..k])
    && Run(durable, steps[..k]).lock.Replaying? && Run(durable, steps[..k]).lock.socket == s
  }

  /** The socket disconnects, or refuses an event. */
  predicate Departs(step: Step, s: Socket) {
    step == Disconnect(s) || (step.SendTo? && step.target == s && step.reply.Refused?)
  }

  ghost predicate StayedSince(durable: bool, steps: seq<Step>, s: Socket, k: nat) {
    GreetedAt(durable, steps, s, k) && forall j :: k < j < |steps| ==> !Departs(steps[j], s)
  }

  lemma StayedOneMore(durable: bool, steps: seq<Step>, s: Socket, n: nat, k: nat)
    requires n == |steps| - 1 && k < n
    ensures StayedSince(durable, steps, s, k) <==> StayedSince(durable, steps[..n], s, k) && !Departs(steps[n], s)
  {
    assert steps[..n][..k] == steps[..k];
    if StayedSince(durable, steps, s, k) {
      assert forall j :: k < j < n ==> steps[..n][j] == steps[j];
    }
    if StayedSince(durable, steps[..n], s, k) && !Departs(steps[n], s) {
      forall j | k < j < |steps| ensures !Departs(steps[j], s) {
        if j < n { assert steps[..n][j] == steps[j]; }
      }
    }
  }

  lemma StepSubscribes(h: Hub, step: Step, s: Socket)
    requires Enabled(h, step)
    ensures s in Apply(h, step).subscribers <==>
      || (s in h.subscribers && !Departs(step, s))
      || (step.Greet? && step.greeting.Delivered? && h.lock.socket == s)
  {
  }

  /** In every run a socket is subscribed exactly from a delivered greeting on until it disconnects or refuses an event. */
  lemma {:induction false} SubscribedIff(durable: bool, steps: seq<Step>, s: Socket)
    requires Legal(durable, steps)
    ensures s in Run(durable, steps).subscribers <==> exists k: nat :: StayedSince(durable, steps, s, k)
  {
    if steps != [] {
      var n := |steps| - 1;
      SubscribedIff(durable, steps[..n], s);
      StepSubscribes(Run(durable, steps[..n]), steps[n], s);
      if k: nat :| StayedSince(durable, steps[..n], s, k) { StayedOneMore(durable, steps, s, n, k); }
      if k: nat :| StayedSince(durable, steps, s, k) {
        if k < n { StayedOneMore(durable, steps, s, n, k); }
      }
      if GreetedAt(durable, steps, s, n) { assert StayedSince(durable, steps, s, n); }
    }
  }

  // ---------- what it means for a client ----------

  lemma WindowOf(h: Hub)
    requires LogOk(h)
    ensures |h.events| == (if |h.history| <= WINDOW then |h.history| else WINDOW)
    ensures h.history == h.history[..|h.history| - |h.events|] + h.events
  {
  }

  /** The retained log is always the last min(500, n) of the n appended events. */
  lemma RetainedWindow(durable: bool, steps: seq<Step>)
    requires Legal(durable, steps)
    ensures var h := Run(durable, steps);
            && |h.events| == (if |h.history| <= 500 then |h.history| else 500)
            && h.history == h.history[..|h.history| - |h.events|] + h.events
  {
    RunKeepsInv(durable, steps);
    WindowOf(Run(durable, steps));
  }

  /** Whatever was cancelled, refused or lost, no socket sees an event twice or out of order, and
      none sees an event that was never appended. */
  lemma StrictOrder(durable: bool, steps: seq<Step>, s: Socket)
    requires Legal(durable, steps) && s in Run(durable, steps).sessions
    ensures var h := Run(durable, steps);
            && Increasing(h.sessions[s].got)
            && (forall e :: e in h.sessions[s].got ==> e in h.history)
  {
    RunKeepsInv(durable, steps);
    var h := Run(durable, steps);
    assert SessionOk(h, s, h.sessions[s]);
  }

  /** The step cancels the sender before the current event has reached the socket it is owed to. */
  ghost predicate Leaves(h: Hub, step: Step, s: Socket) {
    && step.SendTo? && step.reply.Cancelled? && Owed(h, s) && s in h.sessions
    && !(step.target == s && step.reply.reached)
  }

  ghost predicate LeavesAt(durable: bool, steps: seq<Step>, s: Socket, i: nat) {
    i < |steps| && Legal(durable, steps[..i]) && Leaves(Run(durable, steps[..i]), steps[i], s)
  }

  ghost predicate AttachesAfter(steps: seq<Step>, s: Socket, i: nat) {
    exists j :: i < j < |steps| && steps[j] == BeginAttach(s)
  }

  ghost predicate LeftAt(durable: bool, steps: seq<Step>, s: Socket, i: nat) {
    LeavesAt(durable, steps, s, i) && !AttachesAfter(steps, s, i)
  }

  /** Since the socket's latest attach, some sender was cancelled while it owed the socket an event. */
  ghost predicate LeftOwing(durable: bool, steps: seq<Step>, s: Socket) {
    exists i: nat :: LeftAt(durable, steps, s, i)
  }

  lemma StepMisses(h: Hub, step: Step, s: Socket)
    requires Enabled(h, step) && s in Apply(h, step).sessions
    ensures Apply(h, step).sessions[s].missed
       <==> Leaves(h, step, s) || (s in h.sessions && h.sessions[s].missed && step != BeginAttach(s))
  {
  }

  lemma LeavesAtEarlier(durable: bool, steps: seq<Step>, s: Socket, n: nat, i: nat)
    requires i < n <= |steps|
    ensures LeavesAt(durable, steps[..n], s, i) <==> LeavesAt(durable, steps, s, i)
  {
    assert steps[..n][..i] == steps[..i];
  }

  lemma AttachesOneMore(steps: seq<Step>, s: Socket, n: nat, i: nat)
    requires i < n == |steps| - 1
    ensures AttachesAfter(steps, s, i) <==> AttachesAfter(steps[..n], s, i) || steps[n] == BeginAttach(s)
  {
    if AttachesAfter(steps[..n], s, i) {
      var j :| i < j < n && steps[..n][j] == BeginAttach(s);
      assert steps[j] == BeginAttach(s);
    }
    if AttachesAfter(steps, s, i) {
      var j :| i < j < |steps| && steps[j] == BeginAttach(s);
      assert j < n ==> steps[..n][j] == BeginAttach(s);
    }
  }

  lemma LeftAtEarlier(durable: bool, steps: seq<Step>, s: Socket, n: nat, i: nat)
    requires i < n == |steps| - 1
    ensures LeftAt(durable, steps, s, i) <==> LeftAt(durable, steps[..n], s, i) && steps[n] != BeginAttach(s)
  {
    LeavesAtEarlier(durable, steps, s, n, i);
    AttachesOneMore(steps, s, n, i);
  }

  lemma LeftOwingStays(durable: bool, steps: seq<Step>, s: Socket, n: nat)
    requires n == |steps| - 1 && LeftOwing(durable, steps[..n], s) && steps[n] != BeginAttach(s)
    ensures LeftOwing(durable, steps, s)
  {
    var i: nat :| LeftAt(durable, steps[..n], s, i);
    LeftAtEarlier(durable, steps, s, n, i);
  }

  lemma LeftOwingCameFrom(durable: bool, steps: seq<Step>, s: Socket, n: nat)
    requires n == |steps| - 1 && LeftOwing(durable, steps, s)
    ensures LeavesAt(durable, steps, s, n) || (LeftOwing(durable, steps[..n], s) && steps[n] != BeginAttach(s))
  {
    var i: nat :| LeftAt(durable, steps, s, i);
    if i < n { LeftAtEarlier(durable, steps, s, n, i); }
  }

  lemma LeftOwingOneMore(durable: bool, steps: seq<Step>, s: Socket, n: nat)
    requires n == |steps| - 1
    ensures LeftOwing(durable, steps, s)
       <==> LeavesAt(durable, steps, s, n) || (LeftOwing(durable, steps[..n], s) && steps[n] != BeginAttach(s))
  {
    if LeftOwing(durable, steps, s) { LeftOwingCameFrom(durable, steps, s, n); }
    if LeftOwing(durable, steps[..n], s) && steps[n] != BeginAttach(s) { LeftOwingStays(durable, steps, s, n); }
    if LeavesAt(durable, steps, s, n) { assert LeftAt(durable, steps, s, n); }
  }

  /** A socket's session counts as incomplete exactly when a sender was cancelled while owing it an event. */
  lemma {:induction false} MissedMeansCancelled(durable: bool, steps: seq<Step>, s: Socket)
    requires Legal(durable, steps)
    ensures s in Run(durable, steps).sessions ==> (Run(durable, steps).sessions[s].missed <==> LeftOwing(durable, steps, s))
    ensures s !in Run(durable, steps).sessions ==> !LeftOwing(durable, steps, s)
    decreases |steps|
  {
    if steps != [] {
      var n := |steps| - 1;
      var h := Run(durable, steps[..n]);
      MissedMeansCancelled(durable, steps[..n], s);
      LeftOwingOneMore(durable, steps, s, n);
      SessionsStay(h, steps[n]);
      if s in Apply(h, steps[n]).sessions { StepMisses(h, steps[n], s); }
    }
  }

  lemma SessionsStay(h: Hub, step: Step)
    requires Enabled(h, step)
    ensures forall s :: s in Apply(h, step).sessions <==> s in h.sessions || step == BeginAttach(s)
  {
  }

  /** While no coroutine holds the lock, a subscribed socket that attached afresh has exactly the
      log retained when it attached followed by every later event, if and only if no sender was
      cancelled since then while owing it one.  A dropped socket has a prefix of that. */
  lemma ExactDelivery(durable: bool, steps: seq<Step>, s: Socket)
    requires Legal(durable, steps) && s in Run(durable, steps).sessions
    requires Run(durable, steps).lock.Free? && Run(durable, steps).sessions[s].entered
    ensures var h := Run(durable, steps); var x := h.sessions[s];
            && x.since <= |h.history|
            && x.retained == LastN(h.history[..x.since], WINDOW)
            && (s in h.subscribers ==>
                  (x.got == x.retained + h.history[x.since..] <==> !LeftOwing(durable, steps, s)))
            && (!LeftOwing(durable, steps, s) ==> x.got <= x.retained + h.history[x.since..])
  {
    RunKeepsInv(durable, steps);
    MissedMeansCancelled(durable, steps, s);
    var h := Run(durable, steps);
    assert SessionOk(h, s, h.sessions[s]);
  }

  /** Gap-freedom does need that assumption: a subscribed socket is still subscribed, and has
      nothing, after the only sender is cancelled mid-send. */
  lemma CancelledSenderLeavesGap()
    ensures var steps := [BeginAttach(7), Greet(Delivered), BeginSend("done"), SendTo(7, Cancelled(false))];
            && Legal(false, steps)
            && var h := Run(false, steps);
               && 7 in h.subscribers && 7 in h.sessions && h.sessions[7].got == []
               && h.history == [Event(1, "done")]
  {
    var a: seq<Step> := [];
    RunExtends(false, a, BeginAttach(7));
    var b := [BeginAttach(7)];
    assert a + [BeginAttach(7)] == b;
    RunExtends(false, b, Greet(Delivered));
    var c := [BeginAttach(7), Greet(Delivered)];
    assert b + [Greet(Delivered)] == c;
    RunExtends(false, c, BeginSend("done"));
    var d := [BeginAttach(7), Greet(Delivered), BeginSend("done")];
    assert c + [BeginSend("done")] == d;
    RunExtends(false, d, SendTo(7, Cancelled(false)));
    assert d + [SendTo(7, Cancelled(false))]
        == [BeginAttach(7), Greet(Delivered), BeginSend("done"), SendTo(7, Cancelled(false))];
  }

  /** When no stamped event was lost on its way to the store the log is numbered 1, 2, 3, ... */
  lemma DenseNumbering(durable: bool, steps: seq<Step>, i: nat)
    requires Legal(durable, steps) && Run(durable, steps).lost == 0
    requires i < |Run(durable, steps).history|
    ensures Run(durable, steps).history[i].number == i + 1
  {
    RunKeepsInv(durable, steps);
    var h := Run(durable, steps);
    var n := |h.history|;
    NumbersPositive(durable, steps);
    Squeezed(h.history, i);
    assert h.history[n - 1] in h.history;
  }

  lemma StepKeepsNumbersPositive(h: Hub, step: Step)
    requires Enabled(h, step) && forall e :: e in h.history ==> e.number >= 1
    requires h.lock.Persisting? ==> h.lock.event.number >= 1
    ensures forall e :: e in Apply(h, step).history ==> e.number >= 1
    ensures Apply(h, step).lock.Persisting? ==> Apply(h, step).lock.event.number >= 1
  {
  }

  lemma {:induction false} NumbersPositive(durable: bool, steps: seq<Step>)
    requires Legal(durable, steps)
    ensures forall e :: e in Run(durable, steps).history ==> e.number >= 1
    ensures Run(durable, steps).lock.Persisting? ==> Run(durable, steps).lock.event.number >= 1
    decreases |steps|
  {
    if steps != [] {
      NumbersPositive(durable, steps[..|steps| - 1]);
      StepKeepsNumbersPositive(Run(durable, steps[..|steps| - 1]), steps[|steps| - 1]);
    }
  }

  lemma {:induction false} Squeezed(s: seq<Event>, i: nat)
    requires Increasing(s) && i < |s| && s[0].number >= 1
    ensures i + 1 <= s[i].number <= s[|s| - 1].number - (|s| - 1 - i)
    decreases |s|
  {
    if i > 0 { Squeezed(s[..i], i - 1); }
    if i < |s| - 1 { Squeezed(s[..|s| - 1], i); }
  }

  lemma StepRaisesFlag(h: Hub, step: Step)
    requires Enabled(h, step)
    ensures Apply(h, step).persistenceFailed <==> h.persistenceFailed || step == PersistRaised
  {
  }

  /** The flag a verdict is based on is raised exactly by a failing store. */
  lemma {:induction false} FlagMeansPersistRaised(durable: bool, steps: seq<Step>)
    requires Legal(durable, steps)
    ensures Run(durable, steps).persistenceFailed <==> PersistRaised in steps
    decreases |steps|
  {
    if steps != [] {
      var n := |steps| - 1;
      assert steps == steps[..n] + [steps[n]];
      FlagMeansPersistRaised(durable, steps[..n]);
      StepRaisesFlag(Run(durable, steps[..n]), steps[n]);
    }
  }
}
