/** Progress between the two endpoints: the work left in one direction never grows but by new
    messages, what gets something done reduces it, and there is always something to do until
    everything sent has been consumed. */
module Progress {
  import opened Base
  import opened MessageHeaders
  import opened ScatterGather
  import opened Connection
  import opened Lifecycle
  import opened Delivery

  // ---- bounded work ----

  /** What is left to do in one direction: bytes count more the further they are from being consumed. */
  function Work(snd: Conn, sent: seq<seq<byte>>, chan: seq<byte>, rcv: Conn, got: seq<seq<byte>>): int {
    4 * |Pending(snd)| + 3 * |chan| + 2 * |rcv.recv| + |sent| - |got|
  }

  lemma SenderWork(x: Side, a: Action, chan: seq<byte>, rcv: Conn, got: seq<seq<byte>>)
    requires Inv(x.conn) && Enabled(x.conn, a) && !IsPost(a)
    requires !a.DoAccept? && !a.DoConnect? && (a.DoControl? ==> ClosedConsumed !in x.conn.flags)
    ensures var y := History(x, a);
            && y.sent == x.sent
            && Work(y.conn, y.sent, chan + Emitted(x.conn, a), rcv, got)
                <= Work(x.conn, x.sent, chan, rcv, got) - |Emitted(x.conn, a)|
  {
    var c := x.conn;
    match a
    case DoSend(k, rv) =>
      SendShapes(c, k, rv);
      Send1Room(c, k);
      InvBounds(c);
      SendMoves(c, Send(c, k, rv).1, k);
      hide Inv, Enabled, Pending, Healthy, Send;
    case DoReceive(arrived, rv) =>
      ReceiveLeavesSending(c, arrived, rv);
      SameSendingPending(c, Receive(c, arrived, rv).1);
      hide Inv, Enabled, Receive, Pending, SameSending;
    case DoControl(arrived, rv) =>
      ControlLeavesSending(c, arrived, rv);
      hide Inv, Enabled, Pending, Healthy, Control;
    case _ =>
      FlagsLeaveSending(c, a);
      hide Inv, Enabled, Pending, Healthy, Step;
  }

  lemma ReceiveShrinks(c: Conn, arrived: seq<byte>, rv: Status)
    requires Inv(c) && Enabled(c, DoReceive(arrived, rv))
    ensures var d := Receive(c, arrived, rv).1;
            && |d.recv| <= |c.recv| + |arrived|
            && (MessageConsumed in c.flags && Error !in c.flags ==> |d.recv| < |c.recv| + |arrived|)
  {
    hide VerifyPreamble;
    Recv2KeepsBytes(Compacted(c).(recv := Compacted(c).recv + arrived), rv);
  }

  lemma Recv2KeepsBytes(c: Conn, rv: Status)
    ensures Recv2(c, rv).1.recv == c.recv
  {
    hide GetLE32, GetLE16;
  }

  /** A call of the receiver that gets something done. */
  predicate Advances(c: Conn, a: Action) {
    match a
    case DoReceive(arrived, _) => arrived != [] || (MessageConsumed in c.flags && Error !in c.flags)
    case DoControl(arrived, _) => arrived != []
    case DoConsumeReceived => true
    case _ => false
  }

  lemma ReceiverWork(snd: Conn, sent: seq<seq<byte>>, chan: seq<byte>, x: Side, a: Action, peerCap: nat)
    requires Inv(x.conn) && Possible(x, chan, a, peerCap) && Enabled(x.conn, a) && Taken(a) <= |chan|
    ensures var y := History(x, a);
            && Work(snd, sent, chan[Taken(a)..], y.conn, y.got) <= Work(snd, sent, chan, x.conn, x.got)
            && (Advances(x.conn, a) ==>
                  Work(snd, sent, chan[Taken(a)..], y.conn, y.got) < Work(snd, sent, chan, x.conn, x.got))
  {
    var c := x.conn;
    match a
    case DoReceive(arrived, rv) =>
      ReceiveShrinks(c, arrived, rv);
      hide Inv, Enabled, Receive, Pending;
    case DoSend(k, rv) =>
      SendLeavesReceiving(c, k, rv);
      hide Inv, Enabled, Possible, Send, Pending;
    case DoControl(arrived, rv) =>
      hide Pending, RRAC;
    case DoPost(_) =>
      PostLeavesReceiving(c, a);
      hide Inv, Enabled, Possible, Step, BeginSend, Pending;
    case DoSpoofedPost(_) =>
      PostLeavesReceiving(c, a);
      hide Inv, Enabled, Possible, Step, BeginSend, Pending;
    case DoConsumeReceived =>
    case _ =>
      FlagsLeaveReceiving(c, a);
      hide Inv, Enabled, Possible, Step, Pending;
  }

  lemma EmittedLength(c: Conn, a: Action)
    requires Inv(c) && Enabled(c, a)
    ensures a.DoSend? ==> |Emitted(c, a)| == a.taken
  {
    if a.DoSend? {
      Send1Room(c, a.taken);
    }
  }

  /** What is left to do from a to b. */
  function SystemWork(s: System): int {
    Work(s.a.conn, s.a.sent, s.ab, s.b.conn, s.b.got)
  }

  /** A call that moves bytes towards b or consumes a message there. */
  predicate Does(s: System, who: Who, a: Action) {
    (who == A && a.DoSend? && a.taken > 0) || (who == B && Advances(s.b.conn, a))
  }

  lemma WorkIsLeft(s: System)
    requires SystemInv(s)
    ensures SystemWork(s) >= |s.a.sent| - |s.b.got| >= 0
    ensures SystemWork(s) == 0 ==> s.b.got == s.a.sent
  {
    hide Inv, Pending, Covers, AllMessages, Announced, KnownLength;
  }

  /** Progress is bounded: but for new messages of its sender, no call of either endpoint adds to
      the work left from a to b, and every call that moves bytes or consumes a message in that
      direction reduces it. */
  lemma WorkRunsOut(s: System, who: Who, a: Action, t: System)
    requires SystemInv(s) && Next(s, who, a, t) && (who == A ==> !IsPost(a))
    ensures SystemWork(t) <= SystemWork(s)
    ensures Does(s, who, a) ==> SystemWork(t) < SystemWork(s)
  {
    if who == A {
      PossibleEnabled(s.a, s.ba, s.ab, s.b, a);
      PeerFits(s, a);
      SenderWork(s.a, a, s.ab, s.b.conn, s.b.got);
      EmittedLength(s.a.conn, a);
      hide Inv, Flow, Enabled, Possible, History, Work, Emitted;
    } else {
      SwapInv(s);
      PossibleEnabled(s.b, s.ab, s.ba, s.a, a);
      ReceiverWork(s.a.conn, s.a.sent, s.ab, s.b, a, s.a.conn.recvCap);
      hide Inv, Flow, Enabled, Possible, History, Work, Emitted, Advances;
    }
  }

  // ---- everything arrives ----

  /** A continuation in which a posts nothing new. */
  ghost predicate Continues(states: seq<System>, steps: seq<(Who, Action)>) {
    && |states| == |steps| + 1
    && forall i | 0 <= i < |steps| ::
         Next(states[i], steps[i].0, steps[i].1, states[i + 1]) && (steps[i].0 == A ==> !IsPost(steps[i].1))
  }

  /** How many of the calls got something done. */
  function Done(states: seq<System>, steps: seq<(Who, Action)>): nat
    requires |states| == |steps| + 1
  {
    if steps == [] then 0
    else (if Does(states[0], steps[0].0, steps[0].1) then 1 else 0) + Done(states[1..], steps[1..])
  }

  /** In any continuation, whatever the environment and the two programs do in it, at most as many
      calls get something done as there was work; once that many have, everything has arrived. */
  lemma {:induction false} EnoughCallsDeliver(states: seq<System>, steps: seq<(Who, Action)>)
    requires Continues(states, steps) && SystemInv(states[0])
    ensures Done(states, steps) <= SystemWork(states[0])
    ensures SystemInv(states[|steps|])
    ensures Done(states, steps) == SystemWork(states[0]) ==> states[|steps|].b.got == states[|steps|].a.sent
    decreases steps
  {
    hide SystemInv, SystemWork, Next, IsPost, Does;
    if steps == [] {
      WorkIsLeft(states[0]);
    } else {
      var (who, a) := steps[0];
      WorkRunsOut(states[0], who, a, states[1]);
      NextKeeps(states[0], who, a, states[1]);
      EnoughCallsDeliver(states[1..], steps[1..]);
    }
  }

  /** Both ends are well and b may receive. */
  predicate CanDeliver(s: System) {
    Healthy(s.a.conn) && Healthy(s.b.conn) && !Unopened(s.b.conn)
  }

  lemma MoveOf(s: System, a: Action) returns (t: System)
    requires SystemInv(s) && Possible(s.a, s.ba, a, s.b.conn.recvCap)
    ensures Enabled(s.a.conn, a) && Taken(a) <= |s.ba|
    ensures t == System(History(s.a, a), s.b, s.ab + Emitted(s.a.conn, a), s.ba[Taken(a)..]) && Moves(s, a, t)
  {
    hide Flow, Inv, Possible, Enabled, History, Emitted, Taken;
    PossibleEnabled(s.a, s.ba, s.ab, s.b, a);
    t := System(History(s.a, a), s.b, s.ab + Emitted(s.a.conn, a), s.ba[Taken(a)..]);
  }

  lemma SendStaysWell(x: Side)
    requires Inv(x.conn) && Healthy(x.conn)
    ensures var a := DoSend(Send1(x.conn).1, Success);
            && Enabled(x.conn, a) && Healthy(History(x, a).conn) && SameStanding(x.conn, History(x, a).conn)
            && History(x, a).sent == x.sent && History(x, a).got == x.got
  {
    hide Inv;
    InvBounds(x.conn);
  }

  lemma ConsumeStaysWell(x: Side)
    requires Inv(x.conn) && Healthy(x.conn) && !Unopened(x.conn) && IsReceivedEvent(x.conn)
    ensures var d := History(x, DoConsumeReceived).conn;
            Healthy(d) && !Unopened(d) && SameStanding(x.conn, d) && History(x, DoConsumeReceived).sent == x.sent
  {
    hide Inv;
  }

  /** A receive pass that the socket reports as successful sets no error on bytes of the flow. */
  lemma ReceiveStaysWell(snd: Conn, sent: seq<seq<byte>>, chan: seq<byte>, c: Conn, arrived: seq<byte>,
          got: seq<seq<byte>>)
    requires Inv(c) && Flow(snd, sent, chan, c, got) && Healthy(c) && !Unopened(c)
    requires arrived <= chan && 0 < Recv1(c).1 && |arrived| <= Recv1(c).1
    ensures Enabled(c, DoReceive(arrived, Success))
    ensures var d := Step(c, DoReceive(arrived, Success));
            Healthy(d) && !Unopened(d) && SameStanding(c, d)
  {
    ReceiverReceives(snd, sent, chan, c, arrived, Success, got);
    ReceiveInSession(c, arrived, Success);
    CompactedFlow(snd, sent, chan, c, got);
    var d := Compacted(c);
    ArriveShift(d.recv, arrived, chan, Pending(snd));
    SuffixMessages(sent, |got|, c.recvCap);
    var e := d.(recv := d.recv + arrived);
    hide Joined, Pending, Inv, Recv2, AllMessages, KnownLength, Announced;
    Recv2Flow(e, Success, chan[|arrived|..] + Pending(snd), sent[|got|..]);
    ReceiveKeepsStanding(c, arrived, Success);
  }

  lemma ReceiveKeepsStanding(c: Conn, arrived: seq<byte>, rv: Status)
    requires Inv(c) && Enabled(c, DoReceive(arrived, rv))
    ensures SameStanding(c, Receive(c, arrived, rv).1)
  {
    hide Inv, Recv2;
    InvBounds(c);
    Recv2KeepsStanding(Compacted(c).(recv := Compacted(c).recv + arrived), rv);
  }

  /** What opening and closing decide, and the sizes: no pass over the socket changes these. */
  predicate SameStanding(c: Conn, d: Conn) {
    && d.isServer == c.isServer && d.recvCap == c.recvCap && |d.out| == |c.out|
    && (Connecting in d.flags <==> Connecting in c.flags) && (Connected in d.flags <==> Connected in c.flags)
    && (ClientSocketConnected in d.flags <==> ClientSocketConnected in c.flags)
    && (CloseRequested in d.flags <==> CloseRequested in c.flags) && (Idle in d.flags <==> Idle in c.flags)
    && (BlockSend in d.flags <==> BlockSend in c.flags)
  }

  lemma Recv2KeepsStanding(c: Conn, rv: Status)
    ensures SameStanding(c, Recv2(c, rv).1)
  {
    hide GetLE32, GetLE16, RRAC;
  }

  // ---- a call that gets on with it ----

  /** Both ends stand as before, and nothing new is sent by either or consumed by a. */
  predicate BothStand(s: System, t: System) {
    && SameStanding(s.a.conn, t.a.conn) && SameStanding(s.b.conn, t.b.conn)
    && t.a.sent == s.a.sent && t.a.got == s.a.got && t.b.sent == s.b.sent
  }

  lemma BothStandTrans(s: System, t: System, u: System)
    requires BothStand(s, t) && BothStand(t, u)
    ensures BothStand(s, u)
  {
  }

  lemma StandsStill(s: System)
    ensures BothStand(s, s)
  {
  }

  lemma SenderGoesOn(s: System) returns (t: System)
    requires SystemInv(s) && CanDeliver(s) && Send1(s.a.conn).1 > 0
    ensures var a := DoSend(Send1(s.a.conn).1, Success); Next(s, A, a, t) && Does(s, A, a) && CanDeliver(t)
    ensures BothStand(s, t)
  {
    hide Flow, Inv, Enabled, History, Healthy, Unopened, Emitted, Send1;
    InvBounds(s.a.conn);
    SendStaysWell(s.a);
    t := MoveOf(s, DoSend(Send1(s.a.conn).1, Success));
  }

  lemma ReceiverConsumesNext(s: System) returns (t: System)
    requires SystemInv(s) && CanDeliver(s) && IsReceivedEvent(s.b.conn)
    ensures Next(s, B, DoConsumeReceived, t) && Does(s, B, DoConsumeReceived) && CanDeliver(t)
    ensures BothStand(s, t)
  {
    hide Flow, Inv, History, Healthy, Unopened, Emitted;
    ConsumeStaysWell(s.b);
    SwapInv(s);
    var u := MoveOf(Swap(s), DoConsumeReceived);
    t := Swap(u);
  }

  lemma ReceiverGoesOn(s: System) returns (a: Action, t: System)
    requires SystemInv(s) && CanDeliver(s)
    requires Recv1(s.b.conn).1 > 0 && (s.ab != [] || MessageConsumed in s.b.conn.flags)
    ensures !IsPost(a) && Next(s, B, a, t) && Does(s, B, a) && CanDeliver(t)
    ensures BothStand(s, t)
  {
    hide Flow, Inv, Enabled, Unopened, Emitted, Recv1, Step;
    InvBounds(s.b.conn);
    var n := Recv1(s.b.conn).1;
    var arrived := if |s.ab| <= n then s.ab else s.ab[..n];
    a := DoReceive(arrived, Success);
    ReceiveStaysWell(s.a.conn, s.a.sent, s.ab, s.b.conn, arrived, s.b.got);
    SwapInv(s);
    var u := MoveOf(Swap(s), a);
    HistoryConn(s.b, a);
    t := Swap(u);
  }

  /** As long as both ends are well and something sent is not consumed, some call gets on with it
      and leaves both ends well. */
  lemma GoesOn(s: System) returns (who: Who, a: Action, t: System)
    requires SystemInv(s) && CanDeliver(s) && s.b.got != s.a.sent
    ensures !IsPost(a) && Next(s, who, a, t) && Does(s, who, a) && CanDeliver(t) && BothStand(s, t)
  {
    hide Flow, Inv, Healthy, Unopened, Send1, Recv1, IsReceivedEvent, Next, Does;
    NothingIsStuck(s.a.conn, s.a.sent, s.ab, s.b.conn, s.b.got);
    InvBounds(s.a.conn);
    if Send1(s.a.conn).1 > 0 {
      who, a := A, DoSend(Send1(s.a.conn).1, Success);
      t := SenderGoesOn(s);
    } else if IsReceivedEvent(s.b.conn) {
      who, a := B, DoConsumeReceived;
      t := ReceiverConsumesNext(s);
    } else {
      who := B;
      a, t := ReceiverGoesOn(s);
    }
  }

  /** Everything sent arrives: from every state the two endpoints can reach with both ends well
      and the receiver opened there is a continuation, no longer than the work left and without
      new messages, after which b has consumed everything that a sent. */
  lemma {:induction false} EverythingArrives(s: System) returns (states: seq<System>, steps: seq<(Who, Action)>)
    requires SystemInv(s) && CanDeliver(s)
    ensures Continues(states, steps) && states[0] == s && |steps| <= SystemWork(s)
    ensures var t := states[|steps|];
            SystemInv(t) && CanDeliver(t) && BothStand(s, t) && t.b.got == t.a.sent == s.a.sent
    decreases SystemWork(s)
  {
    hide SystemInv, CanDeliver, Next, Does, SystemWork, IsPost, SameStanding;
    WorkIsLeft(s);
    if s.b.got == s.a.sent {
      states, steps := [s], [];
      StandsStill(s);
    } else {
      var who, a, t := GoesOn(s);
      WorkRunsOut(s, who, a, t);
      NextKeeps(s, who, a, t);
      var restStates, restSteps := EverythingArrives(t);
      BothStandTrans(s, t, restStates[|restSteps|]);
      states, steps := [s] + restStates, [(who, a)] + restSteps;
      assert forall i | 0 < i < |steps| :: states[i] == restStates[i - 1] && steps[i] == restSteps[i - 1];
    }
  }

  /** In particular every run can be finished that way. */
  lemma EveryRunCanFinish(states: seq<System>, steps: seq<(Who, Action)>)
          returns (more: seq<System>, moreSteps: seq<(Who, Action)>)
    requires SystemRun(states, steps) && CanDeliver(states[|steps|])
    ensures SystemInv(states[|steps|]) && |moreSteps| <= SystemWork(states[|steps|])
    ensures SystemRun(states + more, steps + moreSteps)
    ensures var t := (states + more)[|steps + moreSteps|]; t.b.got == t.a.sent == states[|steps|].a.sent
  {
    hide SystemInv, CanDeliver, Next, SystemWork, Opened, IsPost, SameStanding;
    SystemRunKeeps(states, steps, |steps|);
    var rest;
    rest, moreSteps := EverythingArrives(states[|steps|]);
    more := rest[1..];
    assert forall k | |steps| <= k < |states + more| :: (states + more)[k] == rest[k - |steps|];
    assert forall k | |steps| <= k < |steps + moreSteps| :: (steps + moreSteps)[k] == moreSteps[k - |steps|];
  }
}
