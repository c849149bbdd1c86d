/** What the passes over one connection do, told by flags, positions and bytes alone: when a message is
    accepted, when the socket is asked, when an error is raised, and when a message counts as sent. */
module Outcomes {
  import opened Base
  import opened MessageHeaders
  import opened Cursor
  import opened Connection
  import opened Lifecycle
  import opened ScatterGather
  import opened Delivery

  // ---- accepting a message ----

  /** Connected, with no error and no close. */
  predicate Open(c: Conn) {
    Connected in c.flags && c.flags !! {Error, Closed, CloseRequested, Idle}
  }

  /** The send buffer is in use, or sending is blocked. */
  predicate Busy(c: Conn) {
    !(c.flags !! {SendRequested, Sending, MessageSent, MessageSentConsumed, BlockSend})
  }

  /** A message is accepted exactly on an open connection whose send buffer is free; it is to be tried
      again exactly when only the sending flags stand in the way; and a refusal changes nothing. */
  lemma PostOutcome(c: Conn, m: seq<byte>)
    requires Inv(c) && 0 < |m| <= |c.out|
    ensures var (rv, d) := Post(c, m);
            && (rv == Success <==> Open(c) && !Busy(c))
            && (rv == Retry <==> Open(c) && Busy(c))
            && (rv == InvalidOperation <==> !Open(c))
            && (rv != Success ==> d == c)
            && (rv == Success ==> d == c.(out := m + c.out[|m|..], sendLen := |m|, flags := c.flags + {SendRequested}))
  {
    PostsInFront(c.out, m);
    U32Exact(|m|);
    hide Splice, U32OfSize;
  }

  lemma PostsInFront(out: seq<byte>, m: seq<byte>)
    requires |m| <= |out|
    ensures Splice(out, 0, m) == m + out[|m|..]
  {
  }

  /** What counts as connected for a post: the client's first request does not wait for it. */
  predicate Ready(c: Conn, a: Action) {
    (a.DoSpoofedPost? || Connected in c.flags) && c.flags !! {Error, Closed, CloseRequested, Idle} && !Busy(c)
  }

  /** The history of an endpoint grows by the posted message exactly when it is ready for it. */
  lemma PostIsSent(x: Side, a: Action)
    requires Inv(x.conn) && Enabled(x.conn, a) && IsPost(a)
    ensures History(x, a).sent == if Ready(x.conn, a) then x.sent + [a.message] else x.sent
    ensures History(x, a).got == x.got
    ensures History(x, a).conn
         == if Ready(x.conn, a) then x.conn.(out := a.message + x.conn.out[|a.message|..], sendLen := |a.message|,
                                             flags := x.conn.flags + {SendRequested})
            else x.conn
  {
    var m := a.message;
    PostsInFront(x.conn.out, m);
    U32Exact(|m|);
    hide Splice, U32OfSize, Inv;
  }

  // ---- a send pass ----

  /** There is something to send and nothing that keeps it back. */
  predicate WantsToSend(c: Conn) {
    Unsent(c) && Error !in c.flags
  }

  /** A pass over a connection that wants to send asks for all that is left. The bytes taken are gone
      even if the call fails; exactly a failure raises the error, and exactly a success that leaves
      nothing makes the message count as sent. */
  lemma SendOutcome(c: Conn, k: nat, rv: Status)
    requires Inv(c) && WantsToSend(c) && Enabled(c, DoSend(k, rv))
    ensures Send1(c).1 == c.sendLen - c.sendPos > 0
    ensures var (status, d) := Send(c, k, rv);
            && status == rv && d == c.(flags := d.flags, sendPos := c.sendPos + k)
            && (Error in d.flags <==> rv != Success)
            && (MessageSent in d.flags <==> rv == Success && d.sendPos == d.sendLen)
            && (rv == Success ==> (Sending in d.flags <==> d.sendPos < d.sendLen))
            && SendRequested !in d.flags
            && (forall f | f !in {Error, MessageSent, Sending, SendRequested} :: f in d.flags <==> f in c.flags)
  {
  }

  /** Any other pass asks for nothing: after an error nothing happens, a consumed message makes way for
      the next one, and otherwise there is nothing to do. */
  lemma NothingToSend(c: Conn, k: nat, rv: Status)
    requires Inv(c) && !WantsToSend(c)
    ensures Send1(c).1 == 0
    ensures var (status, d) := Send(c, k, rv);
            if Error in c.flags then status == ConnectionError && d == c
            else
              && status == Success
              && d == if MessageSentConsumed in c.flags
                      then c.(flags := c.flags - {MessageSent, MessageSentConsumed}, sendPos := 0, sendLen := 0)
                      else c
  {
  }

  // ---- a receive pass ----

  /** The bytes in front of what arrives: a consumed message is dropped. */
  function Kept(c: Conn): seq<byte> {
    if MessageConsumed in c.flags && c.recvLen <= |c.recv| then c.recv[c.recvLen..] else c.recv
  }

  /** The length known of the message at the front, 0 if there is none yet. */
  function Known(c: Conn): u32 {
    if MessageConsumed in c.flags then 0 else c.recvLen
  }

  /** No error, a message may be received, and there is room for it. */
  predicate WantsToReceive(c: Conn) {
    && Error !in c.flags && (ReceiveRequested in c.flags || MessageConsumed in c.flags)
    && (Known(c) == 0 || |c.recv| < c.recvCap)
  }

  /** Twelve bytes that are not the start of a message. */
  predicate Refuses(s: seq<byte>) {
    |s| >= 12 && (s[..4] != RRAC || GetLE16(s[8..10]) !in {2, 4})
  }

  /** What stands at the front announces. */
  function AnnouncedLength(s: seq<byte>, known: u32): u32 {
    if known > 0 || |s| < 12 then known else GetLE32(s[4..8])
  }

  /** A receive pass appends what arrives; exactly a failed call or a refused preamble raises the error,
      and exactly the whole of the announced length exposes the message and ends the request. */
  lemma ReceiveOutcome(c: Conn, arrived: seq<byte>, rv: Status)
    requires Inv(c) && WantsToReceive(c) && Enabled(c, DoReceive(arrived, rv))
    ensures Recv1(c).1 == (if Known(c) == 0 then 64 else c.recvCap - |c.recv|) > 0
    ensures var (status, d) := Receive(c, arrived, rv);
            var refused := Known(c) == 0 && Refuses(Kept(c) + arrived);
            var n := AnnouncedLength(Kept(c) + arrived, Known(c));
            && status == (if rv != Success then rv else if refused then ConnectionError else Success)
            && d == c.(flags := d.flags, recv := Kept(c) + arrived, recvLen := d.recvLen)
            && (Error in d.flags <==> rv != Success || refused)
            && (MessageReceived in d.flags <==> rv == Success && !refused && 0 < n <= |d.recv|)
            && (ReceiveRequested in d.flags <==> Error !in d.flags && MessageReceived !in d.flags)
            && (Error !in d.flags ==> d.recvLen == n)
            && MessageConsumed !in d.flags
            && (forall f | f !in {Error, MessageReceived, ReceiveRequested, MessageConsumed} ::
                  f in d.flags <==> f in c.flags)
  {
    DropsConsumed(c);
    Recv2Outcome(Compacted(c).(recv := Compacted(c).recv + arrived), rv);
    hide Inv, Compacted, Recv2, Refuses, AnnouncedLength;
  }

  lemma Recv2Outcome(c: Conn, rv: Status)
    requires ReceiveRequested in c.flags && c.flags !! {Error, MessageReceived, MessageConsumed}
    ensures var (status, d) := Recv2(c, rv);
            var refused, n := c.recvLen == 0 && Refuses(c.recv), AnnouncedLength(c.recv, c.recvLen);
            && status == (if rv != Success then rv else if refused then ConnectionError else Success)
            && d == c.(flags := d.flags, recvLen := d.recvLen)
            && (Error in d.flags <==> rv != Success || refused)
            && (MessageReceived in d.flags <==> rv == Success && !refused && 0 < n <= |d.recv|)
            && (ReceiveRequested in d.flags <==> Error !in d.flags && MessageReceived !in d.flags)
            && (Error !in d.flags ==> d.recvLen == n)
            && (forall f | f !in {Error, MessageReceived, ReceiveRequested} :: f in d.flags <==> f in c.flags)
  {
    hide GetLE16, GetLE32;
  }

  lemma DropsConsumed(c: Conn)
    requires Inv(c)
    ensures MessageConsumed in c.flags ==> c.recvLen <= |c.recv|
    ensures |c.recv| <= c.recvCap
    ensures var d := Compacted(c);
            && d == c.(flags := d.flags, recv := Kept(c), recvLen := Known(c)) && MessageConsumed !in d.flags
            && (ReceiveRequested in c.flags || MessageConsumed in c.flags ==>
                  ReceiveRequested in d.flags && MessageReceived !in d.flags)
            && (!(ReceiveRequested in c.flags || MessageConsumed in c.flags) ==> d == c)
            && (forall f | f !in {MessageReceived, ReceiveRequested, MessageConsumed} :: f in d.flags <==> f in c.flags)
  {
  }

  /** Any other pass asks for nothing and changes nothing. */
  lemma NothingToReceive(c: Conn, arrived: seq<byte>, rv: Status)
    requires Inv(c) && !WantsToReceive(c)
    ensures |c.recv| <= c.recvCap && (MessageConsumed in c.flags ==> c.recvLen <= |c.recv|)
    ensures Recv1(c).1 == 0
    ensures Receive(c, arrived, rv) == (if Error in c.flags then ConnectionError else Success, c)
  {
  }

  /** A tag, and an announced length that is there. */
  predicate WholeMessage(s: seq<byte>) {
    |s| >= 10 && s[..4] == RRAC && GetLE32(s[4..8]) <= |s|
  }

  /** The program is given all received bytes exactly while a message is exposed and they start with it. */
  lemma ExposureOutcome(c: Conn)
    ensures MessageReceive(c) == if MessageReceived !in c.flags || MessageConsumed in c.flags then Err(Retry)
                                 else if WholeMessage(c.recv) then Ok(c.recv) else Err(InternalError)
  {
    hide GetLE32;
  }

  // ---- a control pass ----

  /** What a closed connection is once it is taken back, and what a new one is. */
  predicate Unused(c: Conn) {
    && c.flags == {Idle} && c.transport == 0 && !c.isServer
    && c.recv == [] && c.recvLen == 0 && c.sendPos == 0 && c.sendLen == 0
  }

  /** The cases in which a raw control pass does not get to the handshake: another transport's connection,
      one that waits to be taken back or to be used, and one that is to be closed. */
  lemma ControlOutcome(c: Conn, arrived: seq<byte>, rv: Status)
    requires Inv(c) && Enabled(c, DoControl(arrived, rv))
    ensures var (status, d) := Control(c, arrived, rv);
            && (c.transport != TCP_TRANSPORT ==> status == Consumed && d == c)
            && (c.transport == TCP_TRANSPORT && ClosedConsumed in c.flags ==>
                  status == Consumed && Unused(d) && d.out == c.out && d.recvCap == c.recvCap)
            && (c.transport == TCP_TRANSPORT && (Closed in c.flags || Idle in c.flags) && ClosedConsumed !in c.flags ==>
                  status == Consumed && d == c)
            && (c.transport == TCP_TRANSPORT && Closed !in c.flags && (CloseRequested in c.flags || Closing in c.flags)
                ==> status == Success && d == c.(flags := {Closed}))
  {
    IdleHasNothing(c);
    OpensOnlyClosed(c);
    hide Inv, HandshakeServer, HandshakeClient, RRAC;
  }

  lemma OpensOnlyClosed(c: Conn)
    requires Inv(c)
    ensures ClosedConsumed in c.flags ==> Closed in c.flags
  {
  }

  /** In use, of the raw transport, and not to be closed. */
  predicate Shaking(c: Conn) {
    c.transport == TCP_TRANSPORT && c.flags !! {Idle, Closed, ClosedConsumed, CloseRequested, Closing}
  }

  /** A raw server that connects waits for four bytes and is connected exactly when they are the tag; a failed
      read raises the error, other bytes are refused without it. One that is connected is left alone. */
  lemma ServerOutcome(c: Conn, arrived: seq<byte>, rv: Status)
    requires Inv(c) && Enabled(c, DoControl(arrived, rv)) && Shaking(c) && c.isServer
    ensures var (status, d) := Control(c, arrived, rv);
            var asked := Connecting in c.flags && |c.recv| < 4;
            var bytes := if asked then c.recv + arrived else c.recv;
            && d == c.(flags := d.flags, recv := bytes)
            && (Connecting !in c.flags ==> status == Success && d == c)
            && (asked && rv != Success ==> status == rv && d.flags == c.flags + {Error})
            && (asked && rv == Success && |bytes| < 4 ==> status == Consumed && d.flags == c.flags)
            && (Connecting in c.flags && (asked ==> rv == Success) && |bytes| >= 4 ==>
                  if bytes[..4] == RRAC then
                    status == Success && d.flags == c.flags - {Connecting} + {Connected, ReceiveRequested}
                  else status == ConnectionError && d.flags == c.flags)
  {
    hide Inv;
  }

  /** A raw client waits for its socket. */
  lemma ClientOutcome(c: Conn, arrived: seq<byte>, rv: Status)
    requires Inv(c) && Enabled(c, DoControl(arrived, rv)) && Shaking(c) && !c.isServer
    ensures Control(c, arrived, rv)
         == if ClientSocketConnected in c.flags then (Success, c)
            else if rv == Success then (Success, c.(flags := c.flags + {ClientSocketConnected, ReceiveRequested}))
            else (rv, c)
  {
    hide Inv;
  }

  /** Accepting and connecting begin on an unused connection, and a close request changes nothing else. */
  lemma OpenAndCloseOutcome(c: Conn, transport: nat)
    requires Inv(c)
    ensures Idle in c.flags ==>
              && Step(c, DoAccept(transport)) == c.(flags := {Connecting}, transport := transport, isServer := true)
              && Step(c, DoConnect(transport)) == c.(flags := {Connecting}, transport := transport, isServer := false)
              && Step(c, DoClose) == c
    ensures Idle !in c.flags ==> Step(c, DoClose) == c.(flags := c.flags + {CloseRequested})
  {
    hide Inv;
  }

  /** The steps of a run that make the given calls, one after the other. */
  ghost predicate Calls(states: seq<Conn>, actions: seq<Action>) {
    && |states| == |actions| + 1
    && forall i | 0 <= i < |actions| ::
         Inv(states[i]) && Enabled(states[i], actions[i]) && states[i + 1] == Step(states[i], actions[i])
  }

  lemma ClosesAndReports(c: Conn, rv: Status) returns (d: Conn, e: Conn)
    requires Inv(c) && c.transport == TCP_TRANSPORT && c.flags !! {Idle, Closed}
    ensures d == Step(c, DoClose) && Inv(d) && Enabled(d, DoControl([], rv)) && e == Step(d, DoControl([], rv))
    ensures Inv(e) && e.flags == {Closed} && e.transport == TCP_TRANSPORT
  {
    hide Inv, Step, Enabled, Control;
    assert Enabled(c, DoClose) by {
      CloseEnabled(c);
    }
    StepKeeps(c, DoClose);
    OpenAndCloseOutcome(c, TCP_TRANSPORT);
    d := Step(c, DoClose);
    NothingArrives(d, rv);
    StepKeeps(d, DoControl([], rv));
    ControlOutcome(d, [], rv);
    ControlIsStep(d, rv);
    OpensOnlyClosed(c);
    e := Step(d, DoControl([], rv));
  }

  lemma CloseEnabled(c: Conn)
    requires Inv(c)
    ensures Enabled(c, DoClose)
  {
  }

  lemma ControlIsStep(c: Conn, rv: Status)
    requires Inv(c) && Enabled(c, DoControl([], rv))
    ensures Step(c, DoControl([], rv)) == Control(c, [], rv).1
  {
    hide Control, Inv;
  }

  lemma TakenBack(c: Conn, rv: Status) returns (d: Conn, e: Conn)
    requires Inv(c) && c.transport == TCP_TRANSPORT && c.flags == {Closed}
    ensures Enabled(c, DoConsumeClosed) && d == Step(c, DoConsumeClosed) && Inv(d)
    ensures Enabled(d, DoControl([], rv)) && e == Step(d, DoControl([], rv)) && Inv(e) && Unused(e)
  {
    hide Inv, Control;
    d := Step(c, DoConsumeClosed);
    StepKeeps(c, DoConsumeClosed);
    NothingArrives(d, rv);
    ControlOutcome(d, [], rv);
    StepKeeps(d, DoControl([], rv));
    e := Step(d, DoControl([], rv));
  }

  /** Every raw connection in use can be had back: a close call, a control pass, the closed event and another
      control pass leave it unused, whatever state it was in and whatever the socket reports. */
  lemma CanBeReused(c: Conn, rv: Status) returns (states: seq<Conn>, actions: seq<Action>)
    requires Inv(c) && c.transport == TCP_TRANSPORT && c.flags !! {Idle, Closed}
    ensures Calls(states, actions) && states[0] == c && Unused(states[|actions|])
    ensures actions == [DoClose, DoControl([], rv), DoConsumeClosed, DoControl([], rv)]
  {
    hide Inv, Step, Enabled, Unused;
    CloseEnabled(c);
    var c1, c2 := ClosesAndReports(c, rv);
    var c3, c4 := TakenBack(c2, rv);
    states := [c, c1, c2, c3, c4];
    actions := [DoClose, DoControl([], rv), DoConsumeClosed, DoControl([], rv)];
  }

  // ---- what an error shows, and what a sent message went through ----

  /** A socket call failed in this call, or what arrived was refused. */
  predicate SocketFails(c: Conn, a: Action) {
    match a
    case DoSend(_, rv) => WantsToSend(c) && rv != Success
    case DoReceive(arrived, rv) =>
      WantsToReceive(c) && (rv != Success || (Known(c) == 0 && Refuses(Kept(c) + arrived)))
    case _ => false
  }

  lemma FailureRaises(c: Conn, a: Action)
    requires Inv(c) && Enabled(c, a) && SocketFails(c, a)
    ensures Error in Step(c, a).flags
  {
    hide Inv, WantsToSend, WantsToReceive, Enabled, Send, Receive, Refuses, Kept, Known, AnnouncedLength;
    match a
    case DoSend(k, rv) => SendOutcome(c, k, rv);
    case DoReceive(arrived, rv) => ReceiveOutcome(c, arrived, rv);
    case _ =>
  }

  /** After a failed socket call the error is there to be reported in every later state of every run,
      until a close is requested or the connection is closed. */
  lemma {:induction false} FailureIsSeen(states: seq<Conn>, actions: seq<Action>, i: nat, j: nat)
    requires Run(states, actions) && i < j < |states| && SocketFails(states[i], actions[i])
    requires forall k | i < k <= j :: states[k].flags !! {CloseRequested, Closed}
    ensures IsError(states[j])
    decreases j
  {
    hide Step, Enabled, Inv, SocketFails;
    RunKeeps(states, actions, j - 1);
    if j == i + 1 {
      FailureRaises(states[i], actions[i]);
    } else {
      FailureIsSeen(states, actions, i, j - 1);
      ErrorPersists(states[j - 1], actions[j - 1]);
      OpenNotConsumed(states[j - 1]);
    }
  }

  /** The bytes that the socket took in the calls from first to last. */
  function TakenBySocket(states: seq<Conn>, actions: seq<Action>, first: nat, last: nat): nat
    requires first <= last <= |actions| <= |states|
    decreases last
  {
    if last <= first then 0
    else
      var c, a := states[last - 1], actions[last - 1];
      TakenBySocket(states, actions, first, last - 1) + if a.DoSend? && WantsToSend(c) then a.taken else 0
  }

  /** The message m is on its way, n bytes of it have been taken. */
  predicate OnItsWay(c: Conn, m: seq<byte>, n: nat) {
    && WantsToSend(c) && c.sendLen == |m| <= |c.out| && c.out[..|m|] == m && c.sendPos == n
  }

  /** Nothing is on its way and nothing counts as sent. */
  predicate Silent(c: Conn) {
    !WantsToSend(c) && MessageSent !in c.flags
  }

  lemma SilentStays(c: Conn, a: Action)
    requires Inv(c) && Enabled(c, a) && Silent(c) && (IsPost(a) ==> Step(c, a) == c)
    ensures Silent(Step(c, a))
  {
    hide Splice, Inv, GetLE16, GetLE32, RRAC;
    match a
    case DoReceive(arrived, rv) =>
      ReceiveLeavesSending(c, arrived, rv);
      hide Receive;
    case DoSend(k, rv) =>
      NothingToSend(c, k, rv);
      hide Send;
    case DoControl(arrived, rv) => ControlStaysSilent(c, arrived, rv);
    case _ =>
      hide Step;
      if !IsPost(a) {
        FlagsStaySilent(c, a);
      }
  }

  lemma ControlStaysSilent(c: Conn, arrived: seq<byte>, rv: Status)
    requires Inv(c) && Enabled(c, DoControl(arrived, rv)) && Silent(c)
    ensures Silent(Control(c, arrived, rv).1)
  {
    hide Inv, RRAC;
  }

  lemma FlagsStaySilent(c: Conn, a: Action)
    requires Inv(c) && Enabled(c, a) && Silent(c)
    requires !IsPost(a) && !a.DoReceive? && !a.DoSend? && !a.DoControl?
    ensures Silent(Step(c, a))
  {
    hide Inv;
  }

  lemma WayGoesOn(c: Conn, a: Action, m: seq<byte>, n: nat)
    requires Inv(c) && Enabled(c, a) && OnItsWay(c, m, n) && (IsPost(a) ==> Step(c, a) == c)
    ensures var d, k := Step(c, a), n + if a.DoSend? then a.taken else 0;
            || OnItsWay(d, m, k)
            || Silent(d)
            || (MessageSent in d.flags && a.DoSend? && a.rv == Success && k == |m|)
    ensures a.DoSend? && OnItsWay(Step(c, a), m, n + a.taken) ==> a.rv == Success
  {
    hide Splice, GetLE16, GetLE32, RRAC;
    match a
    case DoSend(k, rv) => SendOutcome(c, k, rv);
    case DoReceive(arrived, rv) => ReceiveLeavesSending(c, arrived, rv);
    case _ =>
  }

  /** Every pass that asked the socket in the calls from first to last was a success. */
  ghost predicate AllPassesSucceed(states: seq<Conn>, actions: seq<Action>, first: nat, last: nat)
    requires first <= last <= |actions| <= |states|
  {
    forall k | first <= k < last :: actions[k].DoSend? && WantsToSend(states[k]) ==> actions[k].rv == Success
  }

  lemma {:induction false} WayOfMessage(states: seq<Conn>, actions: seq<Action>, i: nat, j: nat, m: seq<byte>)
    requires Run(states, actions) && i <= j < |states| && OnItsWay(states[i], m, 0)
    requires forall k | i <= k < j ::
               MessageSent !in states[k].flags && (IsPost(actions[k]) ==> states[k + 1] == states[k])
    ensures var n := TakenBySocket(states, actions, i, j);
            || Silent(states[j])
            || (AllPassesSucceed(states, actions, i, j)
                && (OnItsWay(states[j], m, n) || (MessageSent in states[j].flags && n == |m|)))
    decreases j
  {
    hide Step, Enabled, Inv, OnItsWay, Silent;
    if i < j {
      var c, a := states[j - 1], actions[j - 1];
      WayOfMessage(states, actions, i, j - 1, m);
      RunKeeps(states, actions, j - 1);
      assert states[j - 1 + 1] == states[j] == Step(c, a);
      assert IsPost(a) ==> Step(c, a) == c;
      if Silent(c) {
        SilentStays(c, a);
      } else {
        var n := TakenBySocket(states, actions, i, j - 1);
        WayGoesOn(c, a, m, n);
        OnItsWayWants(c, m, n);
        assert AllPassesSucceed(states, actions, i, j - 1);
      }
    }
  }

  lemma OnItsWayWants(c: Conn, m: seq<byte>, n: nat)
    ensures OnItsWay(c, m, n) ==> WantsToSend(c)
  {
  }

  /** In every run a message comes to count as sent only when every pass since it was accepted was a
      success and the socket has taken exactly its bytes. */
  lemma SentWasTaken(states: seq<Conn>, actions: seq<Action>, i: nat, j: nat, m: seq<byte>)
    requires Run(states, actions) && i < j < |states| && OnItsWay(states[i], m, 0)
    requires forall k | i <= k < j ::
               MessageSent !in states[k].flags && (IsPost(actions[k]) ==> states[k + 1] == states[k])
    requires MessageSent in states[j].flags
    ensures AllPassesSucceed(states, actions, i, j)
    ensures TakenBySocket(states, actions, i, j) == |m|
  {
    hide Step, Enabled, Inv, OnItsWay, WantsToSend;
    WayOfMessage(states, actions, i, j, m);
    RunKeeps(states, actions, j);
    NoWayWhenSent(states[j], m, TakenBySocket(states, actions, i, j));
  }

  lemma NoWayWhenSent(c: Conn, m: seq<byte>, n: nat)
    requires Inv(c)
    ensures MessageSent in c.flags ==> !OnItsWay(c, m, n) && !Silent(c)
  {
  }

  /** An accepted message is on its way. */
  lemma AcceptedIsOnItsWay(c: Conn, a: Action)
    requires Inv(c) && Enabled(c, a) && IsPost(a) && Ready(c, a)
    ensures OnItsWay(Step(c, a), a.message, 0)
  {
    var x := Side(c, [], []);
    PostIsSent(x, a);
    HistoryConn(x, a);
    hide Step, History, Splice;
  }
}
