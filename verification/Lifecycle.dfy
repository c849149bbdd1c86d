/** All runs of one connection through accept or connect, traffic, errors, close and reuse:
    the flag discipline, what is stable in between, and clean recycling. */
module Lifecycle {
  import opened Base
  import opened Connection
  import opened MessageHeaders

  /** One call of the program or of the event API; the environment chooses what the socket does. */
  datatype Action =
    | DoAccept(transport: nat)
    | DoConnect(transport: nat)
    | DoControl(arrived: seq<byte>, rv: Status)
    | DoReceive(arrived: seq<byte>, rv: Status)
    | DoSend(taken: nat, rv: Status)
    | DoPost(message: seq<byte>)
    | DoSpoofedPost(message: seq<byte>)
    | DoMarkConnected
    | DoConsumeReceived
    | DoConsumeSent
    | DoConsumeConnected
    | DoConsumeClientSocket
    | DoConsumeClosed
    | DoSetNodeFlag(flag: Flag)
    | DoClose
    | DoError

  const NODE_FLAGS: set<Flag> := {Established, ClientEstablished, SendMessage4, CloseNotified}

  /** While the client's handshake posts its first request it counts as connected. */
  function Spoofed(c: Conn): Conn {
    c.(flags := c.flags - {Connecting} + {Connected})
  }

  predicate AtMostOne(a: bool, b: bool, c: bool) {
    !(a && b) && !(a && c) && !(b && c)
  }

  /** No message is waiting, on its way or sent, and no error or close has cut one short. */
  predicate NothingUnderWay(c: Conn) {
    && SendRequested !in c.flags && Sending !in c.flags && MessageSent !in c.flags
    && Error !in c.flags && Closed !in c.flags
  }

  /** The discipline of a connection between calls. */
  predicate Inv(c: Conn) {
    && |c.recv| <= c.recvCap && c.sendPos <= c.sendLen <= |c.out| <= U32_MAX
    && (MessageConsumed in c.flags ==> MessageReceived in c.flags)
    && (MessageReceived in c.flags ==> ReceiveRequested !in c.flags && 0 < c.recvLen <= |c.recv|)
    && (MessageSentConsumed in c.flags ==> MessageSent in c.flags)
    && AtMostOne(SendRequested in c.flags, Sending in c.flags, MessageSent in c.flags)
    && (SendRequested in c.flags ==> c.sendPos == 0 < c.sendLen)
    && (Sending in c.flags && Error !in c.flags ==> c.sendPos < c.sendLen)
    && (NothingUnderWay(c) ==> c.sendPos == 0 && c.sendLen == 0)
    && (ClosedConsumed in c.flags ==> Closed in c.flags)
    && (Idle in c.flags ==> c.flags == {Idle} && c.recv == [] && c.recvLen == 0 && c.sendPos == 0 && c.sendLen == 0)
    && (Unopened(c) || Error in c.flags || Closed in c.flags || ReceiveRequested in c.flags
        || MessageReceived in c.flags)
    && (Unopened(c) ==> c.recvLen == 0 && MessageReceived !in c.flags && ReceiveRequested !in c.flags)
  }

  /** Not yet allowed to receive messages. */
  predicate Unopened(c: Conn) {
    if c.isServer then Connecting in c.flags else ClientSocketConnected !in c.flags && Closed !in c.flags
  }

  /** Which calls follow the event API; the sizes are what the socket and the buffers allow. */
  predicate Enabled(c: Conn, a: Action)
    requires Inv(c)
  {
    match a
    case DoAccept(_) => Idle in c.flags
    case DoConnect(_) => Idle in c.flags
    case DoControl(arrived, _) => |arrived| <= 4 && |c.recv| + |arrived| <= c.recvCap
    case DoReceive(arrived, _) => |arrived| <= Recv1(c).1 && |Recv1(c).2.recv| + |arrived| <= c.recvCap
    case DoSend(taken, _) => taken <= Send1(c).1
    case DoPost(m) => 0 < |m| <= |c.out|
    case DoSpoofedPost(m) => 0 < |m| <= |c.out| && !c.isServer && Connecting in c.flags
        && ClientSocketConnected in c.flags
    case DoMarkConnected => Connecting in c.flags && !c.isServer
    case DoConsumeReceived => IsReceivedEvent(c)
    case DoConsumeSent => IsSentEvent(c)
    case DoConsumeConnected => IsConnectedEvent(c)
    case DoConsumeClientSocket => IsClientSocketEvent(c)
    case DoConsumeClosed => IsClosedEvent(c)
    case DoSetNodeFlag(f) => f in NODE_FLAGS && Idle !in c.flags
    case DoClose => true
    case DoError => Idle !in c.flags
  }

  function Step(c: Conn, a: Action): Conn
    requires Inv(c) && Enabled(c, a)
  {
    match a
    case DoAccept(t) => Accept2(c, t)
    case DoConnect(t) => Connect2(c, t)
    case DoControl(arrived, rv) => Control(c, arrived, rv).1
    case DoReceive(arrived, rv) => Receive(c, arrived, rv).1
    case DoSend(taken, rv) => Send(c, taken, rv).1
    case DoPost(m) => Post(c, m).1
    case DoSpoofedPost(m) =>
      var (rv, d) := Post(Spoofed(c), m);
      if rv == Success then d.(flags := c.flags + {SendRequested}) else c
    case DoMarkConnected => Spoofed(c)
    case DoConsumeReceived => c.(flags := c.flags + {MessageConsumed})
    case DoConsumeSent => c.(flags := c.flags + {MessageSentConsumed})
    case DoConsumeConnected => c.(flags := c.flags + {ConnectedConsumed})
    case DoConsumeClientSocket => c.(flags := c.flags + {ClientSocketConnectedConsumed})
    case DoConsumeClosed => c.(flags := c.flags + {ClosedConsumed})
    case DoSetNodeFlag(f) => c.(flags := c.flags + {f})
    case DoClose => Close(c)
    case DoError => c.(flags := c.flags + {Error})
  }

  /** A connection as construct_from_array and init leave it. */
  predicate Fresh(c: Conn) {
    c == Reset(c) && |c.out| <= U32_MAX
  }

  // ---- every call keeps the discipline ----

  lemma FreshInv(c: Conn)
    requires Fresh(c)
    ensures Inv(c)
  {
  }

  lemma CompactedKeeps(c: Conn)
    requires Inv(c)
    ensures Inv(Compacted(c))
  {
  }

  lemma Recv2Keeps(c: Conn, rv: Status)
    requires Inv(c) && ReceiveRequested in c.flags
    ensures Inv(Recv2(c, rv).1)
  {
    hide GetLE32, GetLE16;
  }

  lemma ArrivedKeeps(c: Conn, arrived: seq<byte>)
    requires Inv(c) && ReceiveRequested in c.flags && |c.recv| + |arrived| <= c.recvCap
    ensures Inv(c.(recv := c.recv + arrived))
  {
  }

  lemma ReceiveKeeps(c: Conn, arrived: seq<byte>, rv: Status)
    requires Inv(c) && Enabled(c, DoReceive(arrived, rv))
    ensures Inv(Receive(c, arrived, rv).1)
  {
    hide Inv, Recv2;
    InvBounds(c);
    CompactedKeeps(c);
    if Error !in c.flags && ReceiveRequest(Compacted(c)) > 0 {
      ArrivedKeeps(Compacted(c), arrived);
      Recv2Keeps(Compacted(c).(recv := Compacted(c).recv + arrived), rv);
    }
  }

  /** The exact condition under which the code asks the socket for more than the free part of the
      buffer: the length is not known yet, and fewer than 64 bytes are free behind what is left
      of the buffer once a consumed message is dropped. */
  lemma RequestTooLargeIff(c: Conn)
    requires Inv(c)
    ensures |Recv1(c).2.recv| + Recv1(c).1 > c.recvCap <==>
              && Error !in c.flags
              && if MessageConsumed in c.flags then |c.recv| - c.recvLen + 64 > c.recvCap
                 else ReceiveRequested in c.flags && c.recvLen == 0 && |c.recv| + 64 > c.recvCap
    ensures MessageConsumed in c.flags && c.recvLen >= 64 ==> |Recv1(c).2.recv| + Recv1(c).1 <= c.recvCap
  {
  }

  lemma InvBounds(c: Conn)
    requires Inv(c)
    ensures |c.recv| <= c.recvCap && (MessageConsumed in c.flags ==> c.recvLen <= |c.recv|)
        && c.sendPos <= c.sendLen <= |c.out|
  {
  }

  lemma SendKeeps(c: Conn, taken: nat, rv: Status)
    requires Inv(c) && Enabled(c, DoSend(taken, rv))
    ensures Inv(Send(c, taken, rv).1)
  {
    if Error in c.flags || MessageSentConsumed in c.flags {
      hide Send2;
    } else if SendRequested in c.flags {
      FirstSendKeeps(c, taken, rv);
    } else if Sending in c.flags {
      NextSendKeeps(c, taken, rv);
    }
  }

  lemma FirstSendKeeps(c: Conn, taken: nat, rv: Status)
    requires Inv(c) && Error !in c.flags && SendRequested in c.flags && taken <= c.sendLen
    ensures Inv(Send2(c.(flags := c.flags - {SendRequested}, sendPos := c.sendPos + taken), rv).1)
  {
  }

  lemma NextSendKeeps(c: Conn, taken: nat, rv: Status)
    requires Inv(c) && Error !in c.flags && Sending in c.flags && taken <= c.sendLen - c.sendPos
    ensures Inv(Send2(c.(sendPos := c.sendPos + taken), rv).1)
  {
  }

  lemma PostKeeps(c: Conn, m: seq<byte>)
    requires Inv(c) && 0 < |m| <= |c.out|
    ensures Inv(Post(c, m).1)
  {
    hide Splice;
    U32Exact(|m|);
  }

  lemma ControlKeeps(c: Conn, arrived: seq<byte>, rv: Status)
    requires Inv(c) && Enabled(c, DoControl(arrived, rv))
    ensures Inv(Control(c, arrived, rv).1)
  {
    hide Inv, HandshakeServer, HandshakeClient, Reset, AfterClose;
    InvBounds(c);
    ResetKeeps(c);
    if Idle !in c.flags && Closed !in c.flags {
      OpenNotConsumed(c);
      ShakeKeeps(c, arrived, rv);
    }
  }

  lemma ResetKeeps(c: Conn)
    requires Inv(c)
    ensures Inv(Reset(c)) && Inv(AfterClose(c)) && (Idle in Reset(c).flags && Closed !in Reset(c).flags)
  {
  }

  lemma OpenNotConsumed(c: Conn)
    requires Inv(c) && Closed !in c.flags
    ensures ClosedConsumed !in c.flags
  {
  }

  lemma ShakeKeeps(c: Conn, arrived: seq<byte>, rv: Status)
    requires Inv(c) && Idle !in c.flags && Closed !in c.flags && |c.recv| + |arrived| <= c.recvCap
    ensures c.isServer ==> Inv(HandshakeServer(c, arrived, rv).1)
    ensures !c.isServer ==> Inv(HandshakeClient(c, rv).1)
  {
    hide RRAC;
  }

  lemma SpoofedPostKeeps(c: Conn, m: seq<byte>)
    requires Inv(c) && Enabled(c, DoSpoofedPost(m))
    ensures Inv(Step(c, DoSpoofedPost(m)))
  {
    hide Splice;
    U32Exact(|m|);
  }

  lemma OpenKeeps(c: Conn, a: Action)
    requires Inv(c) && Enabled(c, a) && (a.DoAccept? || a.DoConnect? || a.DoMarkConnected?)
    ensures Inv(Step(c, a))
  {
  }

  /** Flags that the discipline does not mention. */
  const FREE_FLAGS: set<Flag> := NODE_FLAGS + {CloseRequested, ConnectedConsumed, ClientSocketConnectedConsumed}

  lemma FreeFlagKeeps(c: Conn, f: Flag)
    requires Inv(c) && Idle !in c.flags && f in FREE_FLAGS
    ensures Inv(c.(flags := c.flags + {f}))
  {
  }

  lemma ConsumeMessageKeeps(c: Conn)
    requires Inv(c)
    ensures IsReceivedEvent(c) ==> Inv(c.(flags := c.flags + {MessageConsumed}))
    ensures IsSentEvent(c) ==> Inv(c.(flags := c.flags + {MessageSentConsumed}))
  {
  }

  lemma ConsumeClosedKeeps(c: Conn)
    requires Inv(c) && IsClosedEvent(c)
    ensures Inv(c.(flags := c.flags + {ClosedConsumed}))
  {
  }

  lemma ErrorKeeps(c: Conn)
    requires Inv(c) && Idle !in c.flags
    ensures Inv(c.(flags := c.flags + {Error}))
  {
  }

  /** What an event stands for is not there on an idle connection. */
  lemma EventNotIdle(c: Conn)
    requires Inv(c) && (IsConnectedEvent(c) || IsClientSocketEvent(c))
    ensures Idle !in c.flags
  {
  }

  lemma FlagKeeps(c: Conn, a: Action)
    requires Inv(c) && Enabled(c, a)
    requires a.DoConsumeReceived? || a.DoConsumeSent? || a.DoConsumeConnected? || a.DoConsumeClientSocket?
        || a.DoConsumeClosed? || a.DoSetNodeFlag? || a.DoClose? || a.DoError?
    ensures Inv(Step(c, a))
  {
    hide Inv, IsReceivedEvent, IsSentEvent, IsConnectedEvent, IsClientSocketEvent, IsClosedEvent;
    match a
    case DoConsumeReceived => ConsumeMessageKeeps(c);
    case DoConsumeSent => ConsumeMessageKeeps(c);
    case DoConsumeClosed => ConsumeClosedKeeps(c);
    case DoError => ErrorKeeps(c);
    case DoSetNodeFlag(f) => FreeFlagKeeps(c, f);
    case DoClose =>
      if Idle !in c.flags {
        FreeFlagKeeps(c, CloseRequested);
      }
    case _ =>
      EventNotIdle(c);
      FreeFlagKeeps(c, ConnectedConsumed);
      FreeFlagKeeps(c, ClientSocketConnectedConsumed);
  }

  lemma StepKeeps(c: Conn, a: Action)
    requires Inv(c) && Enabled(c, a)
    ensures Inv(Step(c, a))
  {
    match a
    case DoControl(arrived, rv) => ControlKeeps(c, arrived, rv);
    case DoReceive(arrived, rv) => ReceiveKeeps(c, arrived, rv);
    case DoSend(taken, rv) => SendKeeps(c, taken, rv);
    case DoPost(m) => PostKeeps(c, m);
    case DoSpoofedPost(m) => SpoofedPostKeeps(c, m);
    case _ =>
      hide Inv, Enabled, Step;
      if a.DoAccept? || a.DoConnect? || a.DoMarkConnected? {
        OpenKeeps(c, a);
      } else {
        FlagKeeps(c, a);
      }
  }

  // ---- runs ----

  /** The states of a run, one more than its actions. */
  ghost predicate Run(states: seq<Conn>, actions: seq<Action>) {
    && |states| == |actions| + 1 && Fresh(states[0])
    && forall i | 0 <= i < |actions| ::
         Inv(states[i]) ==> Enabled(states[i], actions[i]) && states[i + 1] == Step(states[i], actions[i])
  }

  /** Every state of every run obeys the discipline. */
  lemma {:induction false} RunKeeps(states: seq<Conn>, actions: seq<Action>, i: nat)
    requires Run(states, actions) && i < |states|
    ensures Inv(states[i])
  {
    hide Inv, Step, Enabled, Fresh;
    if i == 0 {
      FreshInv(states[0]);
    } else {
      RunKeeps(states, actions, i - 1);
      StepKeeps(states[i - 1], actions[i - 1]);
    }
  }

  // ---- what stays put ----

  /** An exposed message: its bytes are still there, unchanged and still exposed, after any
      call but the one that consumes it or the one that takes the closed connection back. */
  lemma ExposedStable(c: Conn, a: Action)
    requires Inv(c) && Enabled(c, a) && IsReceivedEvent(c)
    ensures var d := Step(c, a);
            Idle !in d.flags ==>
              && d.recv == c.recv && d.recvLen == c.recvLen
              && (IsReceivedEvent(d) || a == DoConsumeReceived || d.flags == {Closed})
  {
    hide Splice, GetLE32, GetLE16;
  }

  /** Bytes on their way from c to d: unchanged, at most further along, and only an error or
      the close ends them early. */
  predicate StillUnsent(c: Conn, d: Conn) {
    && d.out == c.out && d.sendLen == c.sendLen && c.sendPos <= d.sendPos
    && (SendRequested in d.flags || Sending in d.flags || (MessageSent in d.flags && d.sendPos == d.sendLen)
        || Error in d.flags || d.flags == {Closed})
  }

  lemma SendingStable(c: Conn, taken: nat, rv: Status)
    requires Inv(c) && Enabled(c, DoSend(taken, rv)) && (SendRequested in c.flags || Sending in c.flags)
    ensures StillUnsent(c, Send(c, taken, rv).1)
  {
  }

  /** Bytes accepted for sending: until the message is complete, no call changes them or their
      length, only the position moves forward, and none is lost but by an error or the close. */
  lemma UnsentStable(c: Conn, a: Action)
    requires Inv(c) && Enabled(c, a) && (SendRequested in c.flags || Sending in c.flags)
    ensures Idle !in Step(c, a).flags ==> StillUnsent(c, Step(c, a))
  {
    hide Splice, GetLE32, GetLE16;
    match a
    case DoSend(taken, rv) => SendingStable(c, taken, rv);
    case DoReceive(arrived, rv) => ReceiveLeavesSending(c, arrived, rv);
    case _ =>
  }

  /** Receiving does not touch the sending half. */
  predicate SameSending(c: Conn, d: Conn) {
    && d.out == c.out && d.sendLen == c.sendLen && d.sendPos == c.sendPos
    && (SendRequested in d.flags <==> SendRequested in c.flags) && (Sending in d.flags <==> Sending in c.flags)
    && (MessageSent in d.flags <==> MessageSent in c.flags)
    && (MessageSentConsumed in d.flags <==> MessageSentConsumed in c.flags)
    && (Error in c.flags ==> Error in d.flags) && (Closed in d.flags <==> Closed in c.flags)
  }

  lemma ReceiveLeavesSending(c: Conn, arrived: seq<byte>, rv: Status)
    requires Inv(c) && Enabled(c, DoReceive(arrived, rv))
    ensures SameSending(c, Receive(c, arrived, rv).1)
  {
    hide Inv, SameSending, Compacted, Recv2;
    InvBounds(c);
    CompactedLeavesSending(c);
    Recv2LeavesSending(Compacted(c), arrived, rv);
    SameSendingTrans(c, Compacted(c), Recv2(Compacted(c).(recv := Compacted(c).recv + arrived), rv).1);
  }

  lemma CompactedLeavesSending(c: Conn)
    requires MessageConsumed in c.flags ==> c.recvLen <= |c.recv|
    ensures SameSending(c, c) && SameSending(c, Compacted(c))
  {
  }

  lemma Recv2LeavesSending(c: Conn, arrived: seq<byte>, rv: Status)
    ensures SameSending(c, Recv2(c.(recv := c.recv + arrived), rv).1)
  {
    hide GetLE32, GetLE16;
  }

  lemma SameSendingTrans(c: Conn, d: Conn, e: Conn)
    requires SameSending(c, d) && SameSending(d, e)
    ensures SameSending(c, e)
  {
  }

  // ---- recycling ----

  /** An idle connection is clean, whatever happened on it before. */
  lemma IdleIsClean(states: seq<Conn>, actions: seq<Action>, i: nat)
    requires Run(states, actions) && i < |states| && Idle in states[i].flags
    ensures var c := states[i];
            c.flags == {Idle} && c.recv == [] && c.recvLen == 0 && c.sendPos == 0 && c.sendLen == 0
  {
    RunKeeps(states, actions, i);
  }

  /** What no call within a session changes: whether the connection is idle or closed; and what
      every such call keeps: a close request and an error. */
  predicate SameSession(c: Conn, d: Conn) {
    && (Idle in d.flags <==> Idle in c.flags) && (Closed in d.flags <==> Closed in c.flags)
    && (CloseRequested in c.flags ==> CloseRequested in d.flags) && (Error in c.flags ==> Error in d.flags)
  }

  lemma Recv2InSession(c: Conn, rv: Status)
    ensures var d := Recv2(c, rv).1;
            SameSession(c, d) && (ClosedConsumed in d.flags <==> ClosedConsumed in c.flags)
  {
    hide GetLE32, GetLE16, RRAC;
  }

  lemma ReceiveInSession(c: Conn, arrived: seq<byte>, rv: Status)
    requires Inv(c) && Enabled(c, DoReceive(arrived, rv))
    ensures var d := Receive(c, arrived, rv).1;
            SameSession(c, d) && (ClosedConsumed in d.flags <==> ClosedConsumed in c.flags)
  {
    hide Inv, Recv2;
    InvBounds(c);
    Recv2InSession(Compacted(c).(recv := Compacted(c).recv + arrived), rv);
  }

  lemma Send1InSession(c: Conn)
    requires c.sendPos <= c.sendLen
    ensures var d := Send1(c).2;
            SameSession(c, d) && (ClosedConsumed in d.flags <==> ClosedConsumed in c.flags)
  {
  }

  lemma Send2InSession(c: Conn, rv: Status)
    ensures var d := Send2(c, rv).1;
            SameSession(c, d) && (ClosedConsumed in d.flags <==> ClosedConsumed in c.flags)
  {
  }

  lemma SendInSession(c: Conn, taken: nat, rv: Status)
    requires Inv(c) && Enabled(c, DoSend(taken, rv))
    ensures var d := Send(c, taken, rv).1;
            SameSession(c, d) && (ClosedConsumed in d.flags <==> ClosedConsumed in c.flags)
  {
    hide Inv, Send1, Send2;
    InvBounds(c);
    Send1InSession(c);
    var d := Send1(c).2;
    Send2InSession(d.(sendPos := d.sendPos + taken), rv);
  }

  lemma FlagsInSession(c: Conn, a: Action)
    requires Inv(c) && Enabled(c, a)
    requires !a.DoAccept? && !a.DoConnect? && !a.DoControl? && !a.DoReceive? && !a.DoSend?
    ensures SameSession(c, Step(c, a))
    ensures a != DoConsumeClosed ==> (ClosedConsumed in Step(c, a).flags <==> ClosedConsumed in c.flags)
  {
    hide Splice, Inv;
  }

  lemma StepInSession(c: Conn, a: Action)
    requires Inv(c) && Enabled(c, a) && !a.DoAccept? && !a.DoConnect? && !a.DoControl?
    ensures SameSession(c, Step(c, a))
    ensures a != DoConsumeClosed ==> (ClosedConsumed in Step(c, a).flags <==> ClosedConsumed in c.flags)
  {
    hide Inv, Enabled, Receive, Send, SameSession;
    match a
    case DoReceive(arrived, rv) => ReceiveInSession(c, arrived, rv);
    case DoSend(taken, rv) => SendInSession(c, taken, rv);
    case _ => FlagsInSession(c, a);
  }

  /** A connection becomes idle again only from a closed state whose event was consumed. */
  lemma IdleOnlyAfterClosed(c: Conn, a: Action)
    requires Inv(c) && Enabled(c, a) && Idle !in c.flags && Idle in Step(c, a).flags
    ensures a.DoControl? && Closed in c.flags && ClosedConsumed in c.flags
  {
    hide Inv, Step;
    if a.DoControl? {
      ControlInSession(c, a.arrived, a.rv);
    } else if !a.DoAccept? && !a.DoConnect? {
      StepInSession(c, a);
    }
  }

  /** Only a control pass takes back, closes or opens. */
  lemma ControlInSession(c: Conn, arrived: seq<byte>, rv: Status)
    requires Inv(c) && Enabled(c, DoControl(arrived, rv))
    ensures var d := Step(c, DoControl(arrived, rv));
            || (ClosedConsumed in c.flags && Closed in c.flags && d.flags == {Idle})
            || (Closed !in c.flags && d.flags == {Closed})
            || (d.flags == c.flags && Closed in c.flags)
            || (Closed !in c.flags && Closed !in d.flags && SameSession(c, d))
  {
    hide RRAC;
  }

  lemma IdleHasNothing(c: Conn)
    requires Inv(c)
    ensures Idle in c.flags ==> c.flags == {Idle}
  {
  }

  /** An error stays until the connection is closed or taken back. */
  lemma ErrorPersists(c: Conn, a: Action)
    requires Inv(c) && Enabled(c, a) && Error in c.flags
    ensures var d := Step(c, a);
            Error in d.flags || (a.DoControl? && (d.flags == {Closed}
                || (d.flags == {Idle} && ClosedConsumed in c.flags)))
  {
    hide Inv, Step;
    if a.DoControl? {
      ControlInSession(c, a.arrived, a.rv);
    } else if !a.DoAccept? && !a.DoConnect? {
      StepInSession(c, a);
    } else {
      IdleHasNothing(c);
    }
  }

  /** No bytes move on a connection with an error. */
  lemma ErrorSilences(c: Conn, a: Action)
    requires Inv(c) && Enabled(c, a) && Error in c.flags && (a.DoReceive? || a.DoSend? || a.DoPost? || a.DoSpoofedPost?)
    ensures Step(c, a) == c
  {
    hide Splice;
  }

  /** On the way from closed back to idle the closed event is consumed. */
  lemma {:induction false} ClosedIsReported(states: seq<Conn>, actions: seq<Action>, i: nat, j: nat)
    requires Run(states, actions) && i < j < |states|
    requires IsClosedEvent(states[i]) && Idle in states[j].flags
    ensures exists k :: i <= k < j && actions[k] == DoConsumeClosed
    decreases j - i
  {
    hide Step, Enabled, Inv;
    RunKeeps(states, actions, i);
    ClosedStays(states[i], actions[i]);
    if actions[i] != DoConsumeClosed {
      RunKeeps(states, actions, i + 1);
      ClosedNotIdle(states[i + 1]);
      ClosedIsReported(states, actions, i + 1, j);
    }
  }

  lemma ClosedStays(c: Conn, a: Action)
    requires Inv(c) && Enabled(c, a) && IsClosedEvent(c)
    ensures a == DoConsumeClosed || IsClosedEvent(Step(c, a))
  {
    hide Inv, Step;
    ClosedNotIdle(c);
    if a.DoControl? {
      ControlInSession(c, a.arrived, a.rv);
    } else {
      StepInSession(c, a);
    }
  }

  lemma ClosedNotIdle(c: Conn)
    requires Inv(c) && IsClosedEvent(c)
    ensures Idle !in c.flags
  {
  }

  // ---- opening and closing ----

  predicate IsPost(a: Action) {
    a.DoPost? || a.DoSpoofedPost?
  }

  lemma ClosingRefuses(c: Conn, a: Action)
    requires Inv(c) && Enabled(c, a) && CloseRequested in c.flags && IsPost(a)
    ensures Step(c, a) == c
  {
    hide Splice, Inv;
  }

  lemma ControlCloses(c: Conn, arrived: seq<byte>, rv: Status)
    requires Inv(c) && Enabled(c, DoControl(arrived, rv)) && c.flags !! {Idle, Closed, ClosedConsumed}
    requires CloseRequested in c.flags && c.transport == TCP_TRANSPORT
    ensures Step(c, DoControl(arrived, rv)).flags == {Closed}
  {
    hide HandshakeServer, HandshakeClient;
  }

  /** Once a close is requested nothing more is accepted for sending, and the next control
      pass closes, whatever else is going on. */
  lemma CloseIsFinal(c: Conn, a: Action)
    requires Inv(c) && Enabled(c, a) && CloseRequested in c.flags && Closed !in c.flags
    ensures a.DoPost? || a.DoSpoofedPost? ==> Step(c, a) == c
    ensures a.DoControl? && c.transport == TCP_TRANSPORT ==> Step(c, a).flags == {Closed}
    ensures !a.DoControl? ==> CloseRequested in Step(c, a).flags && Closed !in Step(c, a).flags
  {
    hide Inv, Step;
    IdleHasNothing(c);
    if a.DoControl? {
      if c.transport == TCP_TRANSPORT {
        OpenNotConsumed(c);
        ControlCloses(c, a.arrived, a.rv);
      }
    } else {
      StepInSession(c, a);
      if IsPost(a) {
        ClosingRefuses(c, a);
      }
    }
  }

  lemma TransportKept(c: Conn, a: Action)
    requires Inv(c) && Enabled(c, a) && !a.DoAccept? && !a.DoConnect? && !a.DoControl?
    ensures Step(c, a).transport == c.transport
  {
    hide Inv, Splice, GetLE32, GetLE16, RRAC;
  }

  lemma CloseIsRequested(c: Conn)
    requires Inv(c) && Idle !in c.flags && Closed !in c.flags
    ensures var d := Step(c, DoClose);
            CloseRequested in d.flags && Closed !in d.flags && d.transport == c.transport
  {
  }

  /** A close call on a raw connection in use: in every run the first control pass after it leaves the
      connection closed, whatever was called in between. */
  lemma {:induction false} CloseCloses(states: seq<Conn>, actions: seq<Action>, i: nat, j: nat)
    requires Run(states, actions) && i < j < |actions| && actions[i] == DoClose
    requires states[i].transport == TCP_TRANSPORT && states[i].flags !! {Idle, Closed}
    requires actions[j].DoControl? && forall k | i < k < j :: !actions[k].DoControl?
    ensures states[j + 1].flags == {Closed}
  {
    hide Step, Enabled, Inv;
    ClosingUntil(states, actions, i, j);
    RunKeeps(states, actions, j);
    CloseIsFinal(states[j], actions[j]);
  }

  lemma {:induction false} ClosingUntil(states: seq<Conn>, actions: seq<Action>, i: nat, j: nat)
    requires Run(states, actions) && i < j < |states| && actions[i] == DoClose
    requires states[i].transport == TCP_TRANSPORT && states[i].flags !! {Idle, Closed}
    requires forall k | i < k < j :: !actions[k].DoControl?
    ensures CloseRequested in states[j].flags && Closed !in states[j].flags && states[j].transport == TCP_TRANSPORT
    decreases j
  {
    hide Step, Enabled, Inv;
    RunKeeps(states, actions, j - 1);
    var c, a := states[j - 1], actions[j - 1];
    if j == i + 1 {
      CloseIsRequested(c);
    } else {
      ClosingUntil(states, actions, i, j - 1);
      NotOpenedAgain(c, a);
      CloseIsFinal(c, a);
      TransportKept(c, a);
    }
  }

  lemma NotOpenedAgain(c: Conn, a: Action)
    requires Inv(c) && Enabled(c, a) && CloseRequested in c.flags
    ensures !a.DoAccept? && !a.DoConnect?
  {
    IdleHasNothing(c);
  }

  /** A connecting raw server counts as connected exactly once its first four bytes are the tag. */
  lemma ServerConnectsIff(c: Conn, arrived: seq<byte>, rv: Status)
    requires Inv(c) && Enabled(c, DoControl(arrived, rv)) && c.transport == TCP_TRANSPORT && c.isServer
    requires Connecting in c.flags && Connected !in c.flags && CloseRequested !in c.flags && Closing !in c.flags
        && Closed !in c.flags
    ensures var d := Step(c, DoControl(arrived, rv));
            && (Connected in d.flags <==> (|c.recv| >= 4 || rv == Success) && |d.recv| >= 4 && d.recv[..4] == RRAC)
            && (Connected in d.flags <==> ReceiveRequested in d.flags)
            && (Connected in d.flags ==> Connecting !in d.flags)
  {
  }

  /** An open raw client whose socket is not connected yet, with no close under way. */
  predicate ClientWaits(c: Conn) {
    && c.transport == TCP_TRANSPORT && !c.isServer
    && c.flags !! {Idle, Closed, ClosedConsumed, ClientSocketConnected, CloseRequested, Closing}
  }

  /** A waiting client learns of a connected socket and of nothing else: a control pass changes
      its state if and only if the socket reports success, and no outcome of the socket, a failed
      connect included, sets the error flag. */
  lemma ClientConnectsIff(c: Conn, arrived: seq<byte>, rv: Status)
    requires Inv(c) && Enabled(c, DoControl(arrived, rv)) && ClientWaits(c)
    ensures var d := Step(c, DoControl(arrived, rv));
            && (d != c <==> rv == Success)
            && (rv == Success ==> d == c.(flags := c.flags + {ClientSocketConnected, ReceiveRequested}))
            && (Error in d.flags <==> Error in c.flags)
  {
  }

  /** So failed connects leave no trace: whatever the socket reports, however often, short of
      success, the client waits on as before and has no event for the program. */
  lemma {:induction false} FailedConnectsUnseen(c: Conn, outcomes: seq<Status>)
    requires Inv(c) && ClientWaits(c) && Success !in outcomes
    ensures Passes(c, outcomes) == c
    decreases outcomes
  {
    hide Inv, Step, ClientWaits;
    if outcomes != [] {
      assert outcomes[0] in outcomes;
      NothingArrives(c, outcomes[0]);
      ClientConnectsIff(c, [], outcomes[0]);
      FailedConnectsUnseen(c, outcomes[1..]);
    }
  }

  /** Control passes with nothing to read, one for each outcome of the socket. */
  function Passes(c: Conn, outcomes: seq<Status>): Conn
    requires Inv(c)
    decreases outcomes
  {
    if outcomes == [] then c
    else
      NothingArrives(c, outcomes[0]);
      StepKeeps(c, DoControl([], outcomes[0]));
      Passes(Step(c, DoControl([], outcomes[0])), outcomes[1..])
  }

  lemma NothingArrives(c: Conn, rv: Status)
    requires Inv(c)
    ensures Enabled(c, DoControl([], rv))
  {
  }

  /** A failing input: right after connect2, with buffers of 2048 bytes, the socket reports an error. */
  lemma FailedConnectUnseen() returns (c0: Conn, c: Conn)
    ensures Fresh(c0) && c0.recvCap == |c0.out| == 2048 && Inv(c0) && Enabled(c0, DoConnect(TCP_TRANSPORT))
    ensures c == Step(c0, DoConnect(TCP_TRANSPORT)) && Inv(c) && ClientWaits(c)
    ensures Enabled(c, DoControl([], ConnectionError))
    ensures Control(c, [], ConnectionError) == (ConnectionError, c) && !IsError(c)
  {
    c0 := Conn({Idle}, 0, false, [], 0, 2048, seq(2048, _ => 0), 0, 0);
    c := Step(c0, DoConnect(TCP_TRANSPORT));
  }
}
