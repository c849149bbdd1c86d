/** The node's event scan (node.c): one pass over the connections per cycle, at most one
    event for each, in the order of the list. */
module Events {
  import opened Base
  import opened Connection
  import Lifecycle

  /** A connection with its heartbeat data (times in microseconds). */
  datatype Monitored = Monitored(conn: Conn, heartbeatNext: int, periodMs: int, timeoutMs: int, lastRecv: int,
          lastSend: int)

  datatype EventType =
    | ClosedEvent | ErrorEvent | ConnectedEvent | SendComplete | MessageEvent
    | ClientSocketEvent | HeartbeatEvent | TimeoutEvent

  /** NextCycle carries no connection. */
  datatype Event = NextCycle | At(kind: EventType, index: nat)

  /** Division of the signed 64-bit type: towards zero. */
  function TruncDiv(a: int, b: int): int
    requires b > 0
  {
    if a >= 0 then a / b else -((-a) / b)
  }

  /** 2 past the timeout, 1 past the period, else 0. */
  function HeartbeatTimeout(m: Monitored, now: int): nat {
    var r, s := TruncDiv(now - m.lastRecv, 1000), TruncDiv(now - m.lastSend, 1000);
    if r > m.timeoutMs || s > m.timeoutMs then 2 else if r > m.periodMs || s > m.periodMs then 1 else 0
  }

  /** The event its flags announce, by priority. */
  function FlagEvent(c: Conn): Option<EventType> {
    if IsClosedEvent(c) then Some(ClosedEvent)
    else if IsError(c) then Some(ErrorEvent)
    else if IsConnectedEvent(c) then Some(ConnectedEvent)
    else if IsSentEvent(c) then Some(SendComplete)
    else if IsReceivedEvent(c) then Some(MessageEvent)
    else if IsClientSocketEvent(c) then Some(ClientSocketEvent)
    else None
  }

  /** Looking at one connection: the event, and the connection with its heartbeat rescheduled. */
  function Examine(m: Monitored, now: int): (Option<EventType>, Monitored) {
    if Idle in m.conn.flags then (None, m)
    else if FlagEvent(m.conn).Some? then (FlagEvent(m.conn), m)
    else if m.heartbeatNext < now then
      var d := m.(heartbeatNext := now + m.periodMs * 1000);
      var t := HeartbeatTimeout(d, now);
      (if t == 0 then None else if t == 1 then Some(HeartbeatEvent) else Some(TimeoutEvent), d)
    else (None, m)
  }

  /** The pass from index i on: the first event, and the connections as it leaves them. */
  function Scan(ms: seq<Monitored>, i: nat, now: int): (Event, seq<Monitored>)
    requires i <= |ms|
    decreases |ms| - i
  {
    if i == |ms| then (NextCycle, ms)
    else
      var (e, m) := Examine(ms[i], now);
      if e.Some? then (At(e.value, i), ms[i := m]) else Scan(ms[i := m], i + 1, now)
  }

  /** Where the node looks next. */
  function Following(ms: seq<Monitored>, i: nat, now: int): (r: nat)
    requires i <= |ms|
    ensures i <= r <= |ms|
  {
    ScanMeans(ms, i, now);
    match Scan(ms, i, now).0
    case NextCycle => |ms|
    case At(_, j) => j + 1
  }

  /** Exactly the connections up to the event are looked at, each as it was found. */
  lemma {:induction false} ScanMeans(ms: seq<Monitored>, i: nat, now: int)
    requires i <= |ms|
    ensures |Scan(ms, i, now).1| == |ms|
    ensures match Scan(ms, i, now).0
            case NextCycle =>
              forall k | 0 <= k < |ms| ::
                Scan(ms, i, now).1[k] == (if i <= k then Examine(ms[k], now).1 else ms[k])
                    && (i <= k ==> Examine(ms[k], now).0 == None)
            case At(t, j) =>
              && i <= j < |ms| && Examine(ms[j], now).0 == Some(t)
              && forall k | 0 <= k < |ms| ::
                   Scan(ms, i, now).1[k] == (if i <= k <= j then Examine(ms[k], now).1 else ms[k])
                       && (i <= k < j ==> Examine(ms[k], now).0 == None)
    decreases |ms| - i
  {
    hide Examine;
    if i < |ms| && Examine(ms[i], now).0.None? {
      ScanMeans(ms[i := Examine(ms[i], now).1], i + 1, now);
    }
  }

  /** One look of the loop at a connection, and the event it found there. */
  datatype Look = Look(index: nat, found: Option<EventType>)

  /** The looks of the pass from index i on, one for each connection that is examined. */
  function Looks(ms: seq<Monitored>, i: nat, now: int): seq<Look>
    requires i <= |ms|
    decreases |ms| - i
  {
    if i == |ms| then []
    else
      var (e, m) := Examine(ms[i], now);
      [Look(i, e)] + if e.Some? then [] else Looks(ms[i := m], i + 1, now)
  }

  /** One round of the loop. */
  lemma ScanStep(ms: seq<Monitored>, i: nat, now: int)
    requires i < |ms|
    ensures var (e, m) := Examine(ms[i], now);
            && Scan(ms, i, now) == (if e.Some? then (At(e.value, i), ms[i := m]) else Scan(ms[i := m], i + 1, now))
            && Looks(ms, i, now) == [Look(i, e)] + if e.Some? then [] else Looks(ms[i := m], i + 1, now)
  {
    hide Examine;
  }

  lemma ScanEnd(ms: seq<Monitored>, now: int)
    ensures Scan(ms, |ms|, now) == (NextCycle, ms) && Looks(ms, |ms|, now) == []
  {
  }

  lemma FollowingMeans(ms: seq<Monitored>, i: nat, now: int)
    requires i <= |ms|
    ensures Following(ms, i, now) == match Scan(ms, i, now).0 case NextCycle => |ms| case At(_, j) => j + 1
  {
    hide Scan;
  }

  /** A pass looks at consecutive connections, each once and as it was found, up to where the node
      looks next; only the last look can have found an event, which is the one reported. */
  lemma {:induction false} LooksMean(ms: seq<Monitored>, i: nat, now: int)
    requires i <= |ms|
    ensures i + |Looks(ms, i, now)| == Following(ms, i, now)
    ensures forall k | 0 <= k < |Looks(ms, i, now)| :: Looks(ms, i, now)[k] == Look(i + k, Examine(ms[i + k], now).0)
    ensures Found(Looks(ms, i, now)) == if Scan(ms, i, now).0 == NextCycle then 0 else 1
    ensures match Scan(ms, i, now).0
            case NextCycle => true
            case At(t, j) => i <= j && Following(ms, i, now) == j + 1 && Looks(ms, i, now)[j - i] == Look(j, Some(t))
    decreases |ms| - i
  {
    hide Examine, Scan, Looks, Following, Found;
    FollowingMeans(ms, i, now);
    if i == |ms| {
      ScanEnd(ms, now);
      FoundNone();
    } else {
      ScanStep(ms, i, now);
      var (e, m) := Examine(ms[i], now);
      var rest := if e.Some? then [] else Looks(ms[i := m], i + 1, now);
      FoundCons(Look(i, e), rest);
      FoundNone();
      if e.None? {
        LooksMean(ms[i := m], i + 1, now);
        FollowingMeans(ms[i := m], i + 1, now);
      }
      forall k | 0 <= k < |Looks(ms, i, now)|
        ensures Looks(ms, i, now)[k] == Look(i + k, Examine(ms[i + k], now).0) {
        if k > 0 {
          assert Looks(ms, i, now)[k] == rest[k - 1];
        }
      }
    }
  }

  lemma FoundNone()
    ensures Found([]) == 0
  {
  }

  lemma FoundCons(l: Look, rest: seq<Look>)
    ensures Found([l] + rest) == (if l.found.Some? then 1 else 0) + Found(rest)
  {
    assert ([l] + rest)[1..] == rest;
  }

  /** How many looks found an event. */
  function Found(looks: seq<Look>): nat {
    if looks == [] then 0 else (if looks[0].found.Some? then 1 else 0) + Found(looks[1..])
  }

  lemma {:induction false} FoundConcat(a: seq<Look>, b: seq<Look>)
    ensures Found(a + b) == Found(a) + Found(b)
  {
    if a == [] {
      assert a + b == b;
    } else {
      FoundConcat(a[1..], b);
      assert (a + b)[1..] == a[1..] + b;
    }
  }

  /** What consuming an event does to its connection; errors and timeouts cannot be consumed. */
  function Consume(m: Monitored, t: EventType): Monitored {
    m.(conn := m.conn.(flags := m.conn.flags + match t
                                              case ClosedEvent => {ClosedConsumed}
                                              case ConnectedEvent => {ConnectedConsumed}
                                              case SendComplete => {MessageSentConsumed}
                                              case MessageEvent => {MessageConsumed}
                                              case ClientSocketEvent => {ClientSocketConnectedConsumed}
                                              case _ => {}))
  }

  /** The node between calls; looks is the history of the loop since the cycle began. */
  datatype NodeState = NodeState(connections: seq<Monitored>, next: nat, serviced: nat, looks: seq<Look>)

  /** next_event, consume_event, or whatever the program and the transports do in between. */
  datatype Call = AskNext(now: int) | Consumes(e: Event) | Outside(connections: seq<Monitored>)

  /** Events refer to connections of the list, and nothing else is linked in or out. */
  predicate Allowed(s: NodeState, call: Call) {
    && s.next <= |s.connections|
    && match call
       case AskNext(_) => true
       case Consumes(e) => e.At? ==> e.index < |s.connections|
       case Outside(ms) => |ms| == |s.connections|
  }

  function After(s: NodeState, call: Call): NodeState
    requires Allowed(s, call)
  {
    match call
    case AskNext(now) =>
      var (e, ms) := Scan(s.connections, s.next, now);
      NodeState(ms, Following(s.connections, s.next, now), s.serviced + if e == NextCycle then 0 else 1,
                s.looks + Looks(s.connections, s.next, now))
    case Consumes(e) =>
      if e == NextCycle then s.(next := 0, serviced := 0, looks := [])
      else s.(connections := s.connections[e.index := Consume(s.connections[e.index], e.kind)])
    case Outside(ms) => s.(connections := ms)
  }

  lemma AfterAsk(s: NodeState, now: int)
    requires s.next <= |s.connections|
    ensures Allowed(s, AskNext(now))
    ensures var (e, ms) := Scan(s.connections, s.next, now);
            After(s, AskNext(now)) == NodeState(ms, Following(s.connections, s.next, now),
                s.serviced + (if e == NextCycle then 0 else 1),
                                                s.looks + Looks(s.connections, s.next, now))
  {
    hide Scan, Looks, Following;
  }

  class Node {
    var connections: seq<Monitored>
    var next: nat
    var serviced: nat
    ghost var looks: seq<Look>

    constructor (connections: seq<Monitored>)
      ensures Value() == NodeState(connections, 0, 0, [])
    {
      this.connections, next, serviced, looks := connections, 0, 0, [];
    }

    ghost function Value(): NodeState
      reads this
    {
      NodeState(connections, next, serviced, looks)
    }

    /** Each examination of a connection is recorded where the loop makes it. */
    method NextEvent(now: int) returns (e: Event)
      requires next <= |connections|
      modifies this
      ensures e == Scan(old(connections), old(next), now).0
      ensures Value() == After(old(Value()), AskNext(now))
      ensures looks == old(looks) + Looks(old(connections), old(next), now)
      ensures e.At? ==> e.index < |old(connections)| && Reported(old(connections)[e.index], now, e.kind)
    {
      hide Examine, Scan, Looks, Following, After, Allowed, Reported;
      FoundIsReported(connections, next, now);
      FollowingMeans(connections, next, now);
      ScanMeans(connections, next, now);
      ghost var before := looks;
      if next == |connections| {
        ScanEnd(connections, now);
        AfterAsk(Value(), now);
        return NextCycle;
      }
      while true
        invariant next < |connections| && |connections| == |old(connections)| && serviced == old(serviced)
        invariant Scan(connections, next, now) == Scan(old(connections), old(next), now)
        invariant looks + Looks(connections, next, now) == before + Looks(old(connections), old(next), now)
        decreases |connections| - next
      {
        var i := next;
        ScanStep(connections, i, now);
        ghost var looked := looks;
        next := i + 1;
        var (r, m) := Examine(connections[i], now);
        looks := looks + [Look(i, r)];
        connections := connections[i := m];
        ghost var rest := if r.Some? then [] else Looks(connections, next, now);
        ConcatAssoc(looked, [Look(i, r)], rest);
        if r.Some? {
          serviced := serviced + 1;
          assert looks + [] == looks;
          AfterAsk(old(Value()), now);
          return At(r.value, i);
        }
        if next == |connections| {
          break;
        }
      }
      ScanEnd(connections, now);
      assert looks + [] == looks;
      AfterAsk(old(Value()), now);
      return NextCycle;
    }

    method ConsumeEvent(e: Event)
      requires next <= |connections| && (e.At? ==> e.index < |connections|)
      modifies this
      ensures Value() == After(old(Value()), Consumes(e))
    {
      match e
      case NextCycle => next, serviced, looks := 0, 0, [];
      case At(t, i) => connections := connections[i := Consume(connections[i], t)];
    }

    method EventsPending() returns (n: nat)
      ensures n == Pending(connections)
    {
      n := 0;
      for i := 0 to |connections|
        invariant n == Pending(connections[..i])
      {
        var c := connections[i].conn;
        assert connections[..i + 1][..i] == connections[..i];
        if Idle in c.flags {
          continue;
        }
        if IsClosedEvent(c) { n := n + 1; }
        if IsError(c) { n := n + 1; }
        if IsConnectedEvent(c) { n := n + 1; }
        if IsSentEvent(c) { n := n + 1; }
        if IsReceivedEvent(c) { n := n + 1; }
        if IsClientSocketEvent(c) { n := n + 1; }
      }
      assert connections[..|connections|] == connections;
    }
  }

  // ---- pending events ----

  function One(b: bool): nat {
    if b then 1 else 0
  }

  function PendingOf(c: Conn): nat {
    if Idle in c.flags then 0
    else
      One(IsClosedEvent(c)) + One(IsError(c)) + One(IsConnectedEvent(c)) + One(IsSentEvent(c))
      + One(IsReceivedEvent(c)) + One(IsClientSocketEvent(c))
  }

  function Pending(ms: seq<Monitored>): nat {
    if ms == [] then 0 else Pending(ms[..|ms| - 1]) + PendingOf(ms[|ms| - 1].conn)
  }

  function Announced(c: Conn, among: set<EventType>): set<EventType> {
    set t | t in among && Announces(c, t)
  }

  lemma OneMore(c: Conn, among: set<EventType>, t: EventType)
    requires t !in among
    ensures |Announced(c, among + {t})| == |Announced(c, among)| + One(Announces(c, t))
  {
    hide Announces;
    var rest := Announced(c, among);
    assert Announced(c, among + {t}) == if Announces(c, t) then rest + {t} else rest;
  }

  lemma AnnouncedCount(c: Conn)
    requires Idle !in c.flags
    ensures PendingOf(c) == One(Announces(c, ClosedEvent)) + One(Announces(c, ErrorEvent))
         + One(Announces(c, ConnectedEvent)) + One(Announces(c, SendComplete)) + One(Announces(c, MessageEvent))
         + One(Announces(c, ClientSocketEvent))
  {
  }

  /** One is counted for each event that the flags announce. */
  lemma PendingCounts(c: Conn)
    requires Idle !in c.flags
    ensures PendingOf(c)
         == |Announced(c, {ClosedEvent, ErrorEvent, ConnectedEvent, SendComplete, MessageEvent, ClientSocketEvent})|
  {
    var none: set<EventType> := {};
    assert Announced(c, none) == {};
    hide *;
    OneMore(c, none, ClosedEvent);
    var one := none + {ClosedEvent};
    OneMore(c, one, ErrorEvent);
    var two := one + {ErrorEvent};
    OneMore(c, two, ConnectedEvent);
    var three := two + {ConnectedEvent};
    OneMore(c, three, SendComplete);
    var four := three + {SendComplete};
    OneMore(c, four, MessageEvent);
    var five := four + {MessageEvent};
    OneMore(c, five, ClientSocketEvent);
    assert five + {ClientSocketEvent}
        == {ClosedEvent, ErrorEvent, ConnectedEvent, SendComplete, MessageEvent, ClientSocketEvent};
    AnnouncedCount(c);
  }

  /** The count of a list is the sum of the counts of its parts. */
  lemma {:induction false} PendingAdds(a: seq<Monitored>, b: seq<Monitored>)
    ensures Pending(a + b) == Pending(a) + Pending(b)
    decreases b
  {
    hide PendingOf;
    if b == [] {
      assert a + b == a;
    } else {
      var front := b[..|b| - 1];
      PendingAdds(a, front);
      assert (a + b)[..|a + b| - 1] == a + front;
    }
  }

  lemma PendingOne(m: Monitored)
    ensures Pending([m]) == PendingOf(m.conn)
  {
    assert [m][..0] == [];
  }

  lemma {:induction false} PendingMeans(ms: seq<Monitored>)
    ensures Pending(ms) > 0 <==> exists k :: 0 <= k < |ms| && PendingOf(ms[k].conn) > 0
  {
    hide PendingOf;
    if ms != [] {
      var front, n := ms[..|ms| - 1], |ms| - 1;
      PendingMeans(front);
      if Pending(front) > 0 {
        var k :| 0 <= k < |front| && PendingOf(front[k].conn) > 0;
        assert front[k] == ms[k];
      }
      if k :| 0 <= k < |ms| && PendingOf(ms[k].conn) > 0 {
        assert k == n || front[k] == ms[k];
      }
    }
  }

  /** A heartbeat that will be reported if the scan gets to it. */
  predicate HeartbeatDue(m: Monitored, now: int) {
    && Idle !in m.conn.flags && m.heartbeatNext < now
    && (SilentFor(m, now, m.periodMs) || SilentFor(m, now, m.timeoutMs))
  }

  lemma ExamineMeans(m: Monitored, now: int)
    ensures Examine(m, now).0.Some? <==> PendingOf(m.conn) > 0 || HeartbeatDue(m, now)
  {
    TimeoutLevel(m.(heartbeatNext := now + m.periodMs * 1000), now);
    hide HeartbeatTimeout, LongerThan;
  }

  /** From the start of a cycle the scan and the count agree: the scan finds an event exactly
      when one is counted or a heartbeat is due; otherwise the cycle ends at once. */
  lemma PendingAgrees(ms: seq<Monitored>, now: int)
    ensures Scan(ms, 0, now).0 == NextCycle
        <==> Pending(ms) == 0 && forall k | 0 <= k < |ms| :: !HeartbeatDue(ms[k], now)
  {
    hide Examine, PendingOf, HeartbeatDue;
    ScanMeans(ms, 0, now);
    PendingMeans(ms);
    forall k | 0 <= k < |ms| ensures Examine(ms[k], now).0.Some?
        <==> PendingOf(ms[k].conn) > 0 || HeartbeatDue(ms[k], now) {
      ExamineMeans(ms[k], now);
    }
  }

  /** Consuming the announced event leaves exactly the others pending; an error stays. */
  lemma ConsumedIsGone(m: Monitored, t: EventType)
    requires Idle !in m.conn.flags && FlagEvent(m.conn) == Some(t)
    ensures t != ErrorEvent ==> FlagEvent(Consume(m, t).conn) != Some(t)
    ensures t != ErrorEvent ==> PendingOf(Consume(m, t).conn) == PendingOf(m.conn) - 1
    ensures t == ErrorEvent ==> Consume(m, t) == m
  {
    assert m.conn.flags + {} == m.conn.flags;
  }

  /** Consuming is the connection's own call for that event, and touches nothing else. */
  lemma ConsumeIsCall(m: Monitored, t: EventType)
    requires Lifecycle.Inv(m.conn) && Announces(m.conn, t)
    ensures var a := match t
                     case ClosedEvent => Lifecycle.DoConsumeClosed
                     case ConnectedEvent => Lifecycle.DoConsumeConnected
                     case SendComplete => Lifecycle.DoConsumeSent
                     case MessageEvent => Lifecycle.DoConsumeReceived
                     case _ => Lifecycle.DoConsumeClientSocket;
            if t == ErrorEvent then Consume(m, t) == m
            else Lifecycle.Enabled(m.conn, a) && Consume(m, t) == m.(conn := Lifecycle.Step(m.conn, a))
  {
    hide Lifecycle.Inv;
    assert m.conn.flags + {} == m.conn.flags;
  }

  /** A message is only announced on a connection that is neither closed nor in error and whose
      connect and send events have been consumed. */
  lemma MessagesComeLast(c: Conn)
    requires FlagEvent(c) == Some(MessageEvent)
    ensures IsReceivedEvent(c) && !IsClosedEvent(c) && !IsError(c) && !IsConnectedEvent(c) && !IsSentEvent(c)
  {
  }

  // ---- what is reported, in terms of flags and times ----

  /** The flags that announce an event; a heartbeat is not announced by flags. */
  predicate Announces(c: Conn, t: EventType) {
    match t
    case ClosedEvent => Closed in c.flags && ClosedConsumed !in c.flags
    case ErrorEvent => Error in c.flags && c.flags !! {Closed, CloseRequested}
    case ConnectedEvent => Connected in c.flags && ConnectedConsumed !in c.flags
    case SendComplete => MessageSent in c.flags && MessageSentConsumed !in c.flags
    case MessageEvent => MessageReceived in c.flags && MessageConsumed !in c.flags
    case ClientSocketEvent => ClientSocketConnected in c.flags && ClientSocketConnectedConsumed !in c.flags
    case HeartbeatEvent => false
    case TimeoutEvent => false
  }

  /** Events with a lower rank go first. */
  function Rank(t: EventType): nat {
    match t
    case ClosedEvent => 0
    case ErrorEvent => 1
    case ConnectedEvent => 2
    case SendComplete => 3
    case MessageEvent => 4
    case ClientSocketEvent => 5
    case HeartbeatEvent => 6
    case TimeoutEvent => 6
  }

  /** In use and without an announced event. */
  ghost predicate Quiet(c: Conn) {
    Idle !in c.flags && forall t: EventType :: !Announces(c, t)
  }

  /** More than the given whole milliseconds, for a difference in microseconds. */
  predicate LongerThan(us: int, ms: int) {
    if ms >= 0 then us >= 1000 * (ms + 1) else us > 1000 * ms
  }

  /** One of the two directions has been silent for more than the given milliseconds. */
  predicate SilentFor(m: Monitored, now: int, ms: int) {
    LongerThan(now - m.lastRecv, ms) || LongerThan(now - m.lastSend, ms)
  }

  /** What is to be reported of a connection that is looked at: the announced event that goes first; of
      one without, when its check is due, a silence beyond the timeout or, short of that, the period. */
  ghost predicate Reported(m: Monitored, now: int, t: EventType) {
    match t
    case TimeoutEvent => Quiet(m.conn) && m.heartbeatNext < now && SilentFor(m, now, m.timeoutMs)
    case HeartbeatEvent =>
      && Quiet(m.conn) && m.heartbeatNext < now
      && SilentFor(m, now, m.periodMs) && !SilentFor(m, now, m.timeoutMs)
    case _ =>
      && Idle !in m.conn.flags && Announces(m.conn, t)
      && forall u: EventType :: Announces(m.conn, u) ==> Rank(t) <= Rank(u)
  }

  lemma TruncatedExceeds(us: int, ms: int)
    ensures TruncDiv(us, 1000) > ms <==> LongerThan(us, ms)
  {
  }

  lemma TimeoutLevel(m: Monitored, now: int)
    ensures HeartbeatTimeout(m, now) == 2 <==> SilentFor(m, now, m.timeoutMs)
    ensures HeartbeatTimeout(m, now) == 1 <==> SilentFor(m, now, m.periodMs) && !SilentFor(m, now, m.timeoutMs)
    ensures HeartbeatTimeout(m, now) <= 2
  {
    hide TruncDiv, LongerThan;
    TruncatedExceeds(now - m.lastRecv, m.timeoutMs);
    TruncatedExceeds(now - m.lastSend, m.timeoutMs);
    TruncatedExceeds(now - m.lastRecv, m.periodMs);
    TruncatedExceeds(now - m.lastSend, m.periodMs);
  }

  lemma FirstGoesFirst(c: Conn)
    ensures FlagEvent(c).Some? ==> Announces(c, FlagEvent(c).value)
    ensures FlagEvent(c).Some? ==> forall u: EventType :: Announces(c, u) ==> Rank(FlagEvent(c).value) <= Rank(u)
    ensures FlagEvent(c) == None ==> forall u: EventType :: !Announces(c, u)
  {
  }

  /** The event announced by flags is the first one in rank. */
  lemma FirstAnnounced(c: Conn, t: EventType)
    ensures FlagEvent(c) == Some(t)
       <==> Announces(c, t) && forall u: EventType :: Announces(c, u) ==> Rank(t) <= Rank(u)
  {
    hide FlagEvent;
    FirstGoesFirst(c);
    if FlagEvent(c).Some? && Announces(c, t) && t != FlagEvent(c).value {
      assert Rank(t) != Rank(FlagEvent(c).value);
    }
  }

  /** The check is put off by the period exactly when it was due on a connection with nothing announced. */
  ghost function Rescheduled(m: Monitored, now: int): Monitored {
    if Quiet(m.conn) && m.heartbeatNext < now then m.(heartbeatNext := now + 1000 * m.periodMs) else m
  }

  /** Exactly the event to be reported is found. */
  lemma ExamineReports(m: Monitored, now: int, t: EventType)
    ensures Examine(m, now).0 == Some(t) <==> Reported(m, now, t)
    ensures Examine(m, now).1 == Rescheduled(m, now)
  {
    FirstGoesFirst(m.conn);
    FirstAnnounced(m.conn, t);
    TimeoutLevel(m.(heartbeatNext := now + m.periodMs * 1000), now);
    hide FlagEvent, HeartbeatTimeout, LongerThan, Rank;
    if FlagEvent(m.conn).Some? {
      assert Announces(m.conn, FlagEvent(m.conn).value);
      hide Announces;
    }
  }

  lemma ExaminesOnly(m: Monitored, now: int)
    ensures Examine(m, now).1 == Rescheduled(m, now)
    ensures forall u: EventType :: Reported(m, now, u) ==> Examine(m, now).0 == Some(u)
    ensures Examine(m, now).0.Some? ==> Reported(m, now, Examine(m, now).0.value)
  {
    hide Examine, Reported, Rescheduled;
    forall u: EventType ensures Examine(m, now).0 == Some(u) <==> Reported(m, now, u) {
      ExamineReports(m, now, u);
    }
    ExamineReports(m, now, ClosedEvent);
  }

  /** One call reports the first connection from where it starts that has something to report; of the
      connections it gets to, and of no others, the checks that were due are put off by the period. */
  lemma CallReports(ms: seq<Monitored>, i: nat, now: int, t: EventType, j: nat)
    requires i <= |ms|
    ensures Scan(ms, i, now).0 == At(t, j) <==>
              && i <= j < |ms| && Reported(ms[j], now, t)
              && forall k, u: EventType | i <= k < j :: !Reported(ms[k], now, u)
    ensures |Scan(ms, i, now).1| == |ms|
    ensures forall k | 0 <= k < |ms| ::
              Scan(ms, i, now).1[k] == if i <= k < Following(ms, i, now) then Rescheduled(ms[k], now) else ms[k]
  {
    hide Examine, Reported, Quiet, Scan, Following, Rescheduled;
    ScanMeans(ms, i, now);
    FollowingMeans(ms, i, now);
    forall k | 0 <= k < |ms|
      ensures Examine(ms[k], now).1 == Rescheduled(ms[k], now)
      ensures forall u: EventType :: Reported(ms[k], now, u) ==> Examine(ms[k], now).0 == Some(u)
      ensures Examine(ms[k], now).0.Some? ==> Reported(ms[k], now, Examine(ms[k], now).0.value)
    {
      ExaminesOnly(ms[k], now);
    }
    match Scan(ms, i, now).0
    case NextCycle =>
    case At(v, n) =>
      assert Reported(ms[n], now, v);
      if i <= j < |ms| && Reported(ms[j], now, t) {
        assert Examine(ms[j], now).0 == Some(t);
        assert j >= n;
      }
      if n == j && v == t {
        forall k, u: EventType | i <= k < j ensures !Reported(ms[k], now, u) {
          assert Examine(ms[k], now).0 == None;
        }
      }
  }

  lemma FoundIsReported(ms: seq<Monitored>, i: nat, now: int)
    requires i <= |ms|
    ensures var e := Scan(ms, i, now).0; e.At? ==> e.index < |ms| && Reported(ms[e.index], now, e.kind)
  {
    hide Scan, Reported;
    var e := Scan(ms, i, now).0;
    if e.At? {
      CallReports(ms, i, now, e.kind, e.index);
    }
  }

  // ---- cycles ----

  /** In the cycle so far the connections before next were looked at, each exactly once and in list
      order, and as many events were reported as looks found one. */
  predicate InCycle(s: NodeState) {
    && |s.looks| == s.next <= |s.connections|
    && (forall k | 0 <= k < s.next :: s.looks[k].index == k)
    && s.serviced == Found(s.looks)
  }

  ghost predicate NodeRun(states: seq<NodeState>, calls: seq<Call>) {
    && |states| == |calls| + 1 && states[0] == NodeState(states[0].connections, 0, 0, [])
    && forall i | 0 <= i < |calls| ::
         InCycle(states[i]) ==> Allowed(states[i], calls[i]) && states[i + 1] == After(states[i], calls[i])
  }

  lemma CallKeeps(s: NodeState, call: Call)
    requires InCycle(s) && Allowed(s, call)
    ensures InCycle(After(s, call))
  {
    hide Scan, Looks, Following, Consume;
    if call.AskNext? {
      ScanMeans(s.connections, s.next, call.now);
      LooksMean(s.connections, s.next, call.now);
      FoundConcat(s.looks, Looks(s.connections, s.next, call.now));
    }
  }

  /** In every run of next_event and consume_event, with anything happening to the connections in
      between, no connection is looked at twice in a cycle and none is passed over. */
  lemma {:induction false} EachOnceInOrder(states: seq<NodeState>, calls: seq<Call>, i: nat)
    requires NodeRun(states, calls) && i < |states|
    ensures InCycle(states[i])
  {
    hide InCycle, After, Allowed;
    if i == 0 {
      hide *;
      StartsCycle(states[0].connections);
    } else {
      EachOnceInOrder(states, calls, i - 1);
      CallKeeps(states[i - 1], calls[i - 1]);
    }
  }

  lemma StartsCycle(ms: seq<Monitored>)
    ensures InCycle(NodeState(ms, 0, 0, []))
  {
  }

  /** The call that reports the next cycle has seen to it that every connection of the list was
      looked at exactly once; any other call adds the look that found the reported event. */
  lemma CycleIsComplete(states: seq<NodeState>, calls: seq<Call>, i: nat)
    requires NodeRun(states, calls) && i < |calls| && calls[i].AskNext?
    ensures InCycle(states[i]) && InCycle(states[i + 1]) && states[i].looks <= states[i + 1].looks
    ensures var e, t := Scan(states[i].connections, states[i].next, calls[i].now).0, states[i + 1];
            && (e == NextCycle ==> t.next == |t.looks| == |t.connections| && t.serviced == states[i].serviced)
            && (e.At? ==>
                  && |states[i].looks| < |t.looks| == e.index + 1
                  && t.looks[e.index] == Look(e.index, Some(e.kind)))
  {
    hide Looks, Scan, InCycle;
    EachOnceInOrder(states, calls, i);
    EachOnceInOrder(states, calls, i + 1);
    AskMeans(states[i], calls[i].now);
  }

  lemma AskMeans(s: NodeState, now: int)
    requires InCycle(s)
    ensures var e, t := Scan(s.connections, s.next, now).0, After(s, AskNext(now));
            && s.looks <= t.looks
            && (e == NextCycle ==> t.next == |t.looks| == |t.connections| && t.serviced == s.serviced)
            && (e.At? ==> |s.looks| < |t.looks| == e.index + 1 && t.looks[e.index] == Look(e.index, Some(e.kind)))
  {
    hide Looks, Scan;
    ScanMeans(s.connections, s.next, now);
    LooksMean(s.connections, s.next, now);
  }

  /** The calls from first to last make up one whole cycle: the first starts at the head of the list,
      the last reports the next cycle, and none in between starts over. */
  ghost predicate Cycle(states: seq<NodeState>, calls: seq<Call>, first: nat, last: nat)
    requires |states| == |calls| + 1
  {
    && first <= last < |calls| && states[first].next == 0
    && calls[last].AskNext? && states[last].next <= |states[last].connections|
    && Scan(states[last].connections, states[last].next, calls[last].now).0 == NextCycle
    && forall k | first <= k <= last :: calls[k] != Consumes(NextCycle)
  }

  lemma CycleAdvances(s: NodeState, call: Call)
    requires InCycle(s) && Allowed(s, call) && call != Consumes(NextCycle)
    ensures var t := After(s, call);
            && s.next <= t.next && |t.connections| == |s.connections|
            && (s.next < t.next ==> call.AskNext?)
            && (call.AskNext? ==> t.next == Following(s.connections, s.next, call.now))
            && (call.AskNext? && Scan(s.connections, s.next, call.now).0 == NextCycle ==> t.next == |t.connections|)
  {
    hide Scan, Looks, Following, Consume, InCycle;
    if call.AskNext? {
      ScanMeans(s.connections, s.next, call.now);
      FollowingMeans(s.connections, s.next, call.now);
    }
  }

  /** In a whole cycle every connection is looked at by one of the calls. */
  lemma {:induction false} CycleReaches(states: seq<NodeState>, calls: seq<Call>, first: nat, last: nat, j: nat)
          returns (k: nat)
    requires NodeRun(states, calls) && first <= last < |calls|
    requires forall k | first <= k <= last :: calls[k] != Consumes(NextCycle)
    requires calls[last].AskNext? && states[last].next <= |states[last].connections|
    requires Scan(states[last].connections, states[last].next, calls[last].now).0 == NextCycle
    requires states[first].next <= j < |states[first].connections|
    ensures first <= k <= last && calls[k].AskNext? && states[k].next <= j < states[k + 1].next
    ensures j < |states[k].connections|
    decreases last - first
  {
    hide Scan, InCycle, After, Allowed;
    EachOnceInOrder(states, calls, first);
    CycleAdvances(states[first], calls[first]);
    if j < states[first + 1].next {
      k := first;
    } else {
      k := CycleReaches(states, calls, first + 1, last, j);
    }
  }

  /** The call that looks at a connection reports it exactly when there is something to report of it. */
  lemma LookReports(ms: seq<Monitored>, i: nat, now: int, j: nat, t: EventType)
    requires i <= j < |ms| && j < Following(ms, i, now)
    ensures Scan(ms, i, now).0 == At(t, j) <==> Reported(ms[j], now, t)
  {
    hide Scan, Following, Examine, Reported;
    ScanMeans(ms, i, now);
    FollowingMeans(ms, i, now);
    ExamineReports(ms[j], now, t);
  }

  /** In every whole cycle of every run each connection is looked at by one call, and that call reports
      of it exactly what its flags and times then ask for. */
  lemma ReportedInCycle(states: seq<NodeState>, calls: seq<Call>, first: nat, last: nat, j: nat) returns (k: nat)
    requires NodeRun(states, calls) && Cycle(states, calls, first, last) && j < |states[first].connections|
    ensures first <= k <= last && calls[k].AskNext? && states[k].next <= j < |states[k].connections|
    ensures states[k].next <= |states[k].connections|
    ensures forall t: EventType :: Scan(states[k].connections, states[k].next, calls[k].now).0 == At(t, j)
                              <==> Reported(states[k].connections[j], calls[k].now, t)
  {
    hide Scan, InCycle, After, Allowed, Reported;
    k := CycleReaches(states, calls, first, last, j);
    EachOnceInOrder(states, calls, k);
    CycleAdvances(states[k], calls[k]);
    forall t: EventType ensures Scan(states[k].connections, states[k].next, calls[k].now).0 == At(t, j)
                           <==> Reported(states[k].connections[j], calls[k].now, t) {
      LookReports(states[k].connections, states[k].next, calls[k].now, j, t);
    }
  }

  /** A connection whose check falls due in a cycle while it has been silent for longer than the timeout,
      with nothing else to announce, is reported as timed out in that very cycle. */
  lemma TimeoutIsReported(states: seq<NodeState>, calls: seq<Call>, first: nat, last: nat, j: nat) returns (k: nat)
    requires NodeRun(states, calls) && Cycle(states, calls, first, last) && j < |states[first].connections|
    requires forall i | first <= i <= last && calls[i].AskNext? && states[i].next <= j < |states[i].connections| ::
               var m := states[i].connections[j];
               Quiet(m.conn) && m.heartbeatNext < calls[i].now && SilentFor(m, calls[i].now, m.timeoutMs)
    ensures first <= k <= last && calls[k].AskNext? && states[k].next <= |states[k].connections|
    ensures Scan(states[k].connections, states[k].next, calls[k].now).0 == At(TimeoutEvent, j)
  {
    hide Scan, InCycle, After, Allowed, Quiet, SilentFor;
    k := ReportedInCycle(states, calls, first, last, j);
    assert Reported(states[k].connections[j], calls[k].now, TimeoutEvent);
  }
}
