/** The room of the receive buffer: runs in which arrivals always fit, and what an announced length
    that is too short or too long does. */
module ReceiveLimits {
  import opened Base
  import opened MessageHeaders
  import opened Connection
  import opened Lifecycle

  // ---- when arrivals fit ----

  /** Calls with a socket that gives at most what it was asked for, and nothing known of the room. */
  predicate SocketAllows(c: Conn, a: Action)
    requires Inv(c)
  {
    match a
    case DoControl(arrived, _) => |arrived| <= if HandshakeReads(c) then 4 else 0
    case DoReceive(arrived, _) => |arrived| <= Recv1(c).1
    case _ => Enabled(c, a)
  }

  /** What stands in the buffer announces at least 64 bytes, once its preamble is there. */
  predicate AnnouncesEnough(c: Conn) {
    && (MessageReceived in c.flags ==> c.recvLen >= 64)
    && (ReceiveRequested in c.flags && Error !in c.flags && |c.recv| >= 12 ==> c.recvLen >= 64)
  }

  /** Then whatever the socket may give has room. */
  lemma ArrivalsFit(c: Conn, a: Action)
    requires Inv(c) && c.recvCap > 1024 && AnnouncesEnough(c) && SocketAllows(c, a)
    ensures Enabled(c, a)
  {
    match a
    case DoReceive(_, _) =>
      InvBounds(c);
      RequestTooLargeIff(c);
      hide Inv, Recv1;
      if MessageConsumed in c.flags {
        ConsumedIsReceived(c);
      }
    case _ => InvBounds(c);
  }

  lemma ConsumedIsReceived(c: Conn)
    requires Inv(c)
    ensures MessageConsumed in c.flags ==> MessageReceived in c.flags
  {
  }

  lemma CapKept(c: Conn, a: Action)
    requires Inv(c) && Enabled(c, a)
    ensures Step(c, a).recvCap == c.recvCap
  {
    hide Inv, Splice, GetLE32, GetLE16, RRAC;
  }

  /** A run over such a socket, with a buffer of more than 1024 bytes. */
  ghost predicate SocketRun(states: seq<Conn>, actions: seq<Action>) {
    && |states| == |actions| + 1 && Fresh(states[0]) && states[0].recvCap > 1024
    && forall i | 0 <= i < |actions| ::
         && (Inv(states[i]) ==> SocketAllows(states[i], actions[i]))
         && (Inv(states[i]) && Enabled(states[i], actions[i]) ==> states[i + 1] == Step(states[i], actions[i]))
  }

  lemma {:induction false} SocketRunFits(states: seq<Conn>, actions: seq<Action>, i: nat)
    requires SocketRun(states, actions) && i < |states|
    requires forall c | c in states :: AnnouncesEnough(c)
    ensures Inv(states[i]) && states[i].recvCap > 1024
    ensures i < |actions| ==> Enabled(states[i], actions[i])
  {
    hide Inv, Step, Enabled, Fresh, AnnouncesEnough, SocketAllows;
    if i == 0 {
      FreshInv(states[0]);
    } else {
      SocketRunFits(states, actions, i - 1);
      StepKeeps(states[i - 1], actions[i - 1]);
      CapKept(states[i - 1], actions[i - 1]);
    }
    if i < |actions| {
      assert states[i] in states;
      ArrivalsFit(states[i], actions[i]);
    }
  }

  /** Nothing need be assumed of the room: a run in which every preamble announces at least 64
      bytes is a run of the discipline, and the buffer never overflows. */
  lemma FramedRunFits(states: seq<Conn>, actions: seq<Action>)
    requires SocketRun(states, actions) && forall c | c in states :: AnnouncesEnough(c)
    ensures Run(states, actions)
    ensures forall i | 0 <= i < |states| :: Inv(states[i]) && |states[i].recv| <= states[i].recvCap
  {
    hide Inv, Step, Enabled, Fresh, AnnouncesEnough, SocketAllows;
    forall i | 0 <= i < |states|
      ensures Inv(states[i]) && |states[i].recv| <= states[i].recvCap
      ensures i < |actions| ==> Enabled(states[i], actions[i])
    {
      SocketRunFits(states, actions, i);
      InvBounds(states[i]);
    }
  }

  // ---- a buffer filled by one message ----

  /** The eight bytes behind the tag: a length and version 2. */
  function Preamble(len: u32): (r: seq<byte>)
    ensures |r| == 8
  {
    LE32(len) + LE16(2) + [0, 0]
  }

  lemma PreambleSlices(len: u32)
    ensures var p := RRAC + Preamble(len);
            |p| == 12 && p[..4] == RRAC && GetLE32(p[4..8]) == len && GetLE16(p[8..10]) == 2
  {
    LE32RoundTrip(len);
    LE16RoundTrip(2);
    hide LE32, GetLE32, LE16, GetLE16;
    var p := RRAC + Preamble(len);
    assert p[4..8] == LE32(len) && p[8..10] == LE16(2);
  }

  /** The state of a server after n bytes of a message that announces len. */
  function Filling(c0: Conn, received: seq<byte>, len: u32, exposed: bool): Conn {
    c0.(flags := {Connected, if exposed then MessageReceived else ReceiveRequested}, transport := TCP_TRANSPORT,
        isServer := true, recv := received, recvLen := len)
  }

  lemma TagArrives(c: Conn)
    requires Inv(c) && c == Accept2(Reset(c), TCP_TRANSPORT) && c.recvCap == 2048
    ensures Enabled(c, DoControl(RRAC, Success))
    ensures Step(c, DoControl(RRAC, Success)) == Filling(c, RRAC, 0, false)
  {
    assert [] + RRAC == RRAC && RRAC[..4] == RRAC;
  }

  lemma PreambleArrives(c: Conn, len: u32)
    requires c == Filling(c, RRAC, 0, false) && Inv(c) && c.recvCap == 2048 && len > 12
    ensures Enabled(c, DoReceive(Preamble(len), Success))
    ensures Step(c, DoReceive(Preamble(len), Success)) == Filling(c, RRAC + Preamble(len), len, false)
  {
    PreambleSlices(len);
    hide Preamble, GetLE32, GetLE16, Inv;
  }

  lemma RestArrives(c: Conn, head: seq<byte>, rest: seq<byte>, len: u32)
    requires c == Filling(c, head, len, false) && Inv(c) && c.recvCap == 2048 && len > 0
    requires rest != [] && |head| + |rest| == 2048
    ensures Enabled(c, DoReceive(rest, Success))
    ensures Step(c, DoReceive(rest, Success)) == Filling(c, head + rest, len, len <= 2048)
  {
    hide Inv;
    assert {Connected, ReceiveRequested} - {ReceiveRequested} + {MessageReceived} == {Connected, MessageReceived};
  }

  /** A run from construction: a server with a buffer of 2048 bytes accepts, gets a preamble that
      announces len, and then bytes until the buffer is full. */
  lemma FilledRun(c0: Conn, len: u32) returns (states: seq<Conn>, actions: seq<Action>)
    requires Fresh(c0) && c0.recvCap == 2048 && len > 12
    ensures Run(states, actions) && |actions| == 4 && states[0] == c0
    ensures Inv(states[4]) && |states[4].recv| == 2048
    ensures states[4] == Filling(c0, states[4].recv, len, len <= 2048)
  {
    var head, rest := RRAC + Preamble(len), seq(2036, _ => 0 as byte);
    var a0, a1 := DoAccept(TCP_TRANSPORT), DoControl(RRAC, Success);
    var a2, a3 := DoReceive(Preamble(len), Success), DoReceive(rest, Success);
    FreshInv(c0);
    FreshAccepts(c0);
    var c1 := Step(c0, a0);
    StepKeeps(c0, a0);
    AcceptedIs(c0);
    hide Inv, Step, Enabled, Fresh, Preamble, Filling;
    TagArrives(c1);
    var c2 := Step(c1, a1);
    StepKeeps(c1, a1);
    FillingSame(c0, c1, RRAC, 0, false);
    PreambleArrives(c2, len);
    var c3 := Step(c2, a2);
    StepKeeps(c2, a2);
    FillingSame(c0, c2, head, len, false);
    RestArrives(c3, head, rest, len);
    var c4 := Step(c3, a3);
    StepKeeps(c3, a3);
    FillingSame(c0, c3, head + rest, len, len <= 2048);
    hide Run;
    RunOfFour(c0, c1, c2, c3, c4, a0, a1, a2, a3);
    states, actions := [c0, c1, c2, c3, c4], [a0, a1, a2, a3];
  }

  lemma RunOfFour(c0: Conn, c1: Conn, c2: Conn, c3: Conn, c4: Conn, a0: Action, a1: Action, a2: Action, a3: Action)
    requires Fresh(c0) && Inv(c0) && Inv(c1) && Inv(c2) && Inv(c3)
    requires Enabled(c0, a0) && c1 == Step(c0, a0) && Enabled(c1, a1) && c2 == Step(c1, a1)
    requires Enabled(c2, a2) && c3 == Step(c2, a2) && Enabled(c3, a3) && c4 == Step(c3, a3)
    ensures Run([c0, c1, c2, c3, c4], [a0, a1, a2, a3])
  {
    hide Fresh, Inv, Enabled, Step;
  }

  lemma FreshAccepts(c: Conn)
    requires Fresh(c)
    ensures Inv(c) && Enabled(c, DoAccept(TCP_TRANSPORT))
  {
  }

  lemma AcceptedIs(c: Conn)
    requires Fresh(c)
    ensures var d := Accept2(c, TCP_TRANSPORT);
            d == Accept2(Reset(d), TCP_TRANSPORT) && d.recvCap == c.recvCap && d.out == c.out
            && Filling(d, d.recv, 0, false) == Filling(c, c.recv, 0, false)
  {
  }

  lemma FillingSame(c0: Conn, c: Conn, received: seq<byte>, len: u32, exposed: bool)
    requires c.recvCap == c0.recvCap && c.out == c0.out && c.sendPos == c0.sendPos && c.sendLen == c0.sendLen
    ensures Filling(c, received, len, exposed) == Filling(c0, received, len, exposed)
    ensures var d := Filling(c0, received, len, exposed);
            && d == Filling(d, received, len, exposed) && d.recvCap == c0.recvCap && d.out == c0.out
            && d.sendPos == c0.sendPos && d.sendLen == c0.sendLen && d.recv == received
  {
  }

  // ---- a length that is too short ----

  /** A failing input: a message of 13 bytes is consumed from a full buffer of 2048 bytes, and the next
      receive pass asks for 51 bytes more than there is room for. */
  lemma RequestTooLarge(c0: Conn) returns (states: seq<Conn>, actions: seq<Action>)
    requires Fresh(c0) && c0.recvCap == 2048
    ensures Run(states, actions) && states[0] == c0
    ensures var c := states[|actions|];
            Inv(c) && c.recvLen == 13 && |Recv1(c).2.recv| + Recv1(c).1 == c.recvCap + 51
  {
    states, actions := FilledRun(c0, 13);
    var c := states[4];
    assert Enabled(c, DoConsumeReceived);
    var d := Step(c, DoConsumeReceived);
    StepKeeps(c, DoConsumeReceived);
    assert Recv1(d).1 == 64 && |Recv1(d).2.recv| == 2048 - 13;
    hide Inv, Enabled, Step, Fresh, Recv1;
    RunExtends(states, actions, DoConsumeReceived);
    states, actions := states + [d], actions + [DoConsumeReceived];
  }

  lemma RunExtends(states: seq<Conn>, actions: seq<Action>, a: Action)
    requires Run(states, actions) && Inv(states[|actions|]) && Enabled(states[|actions|], a)
    ensures Run(states + [Step(states[|actions|], a)], actions + [a])
  {
    hide Inv, Enabled, Step, Fresh;
  }

  // ---- a length that is too long ----

  /** The buffer is full and the announced message is longer. */
  predicate TooLong(c: Conn) {
    && Error !in c.flags && Closed !in c.flags && ReceiveRequested in c.flags
    && c.recvLen > c.recvCap && |c.recv| == c.recvCap
  }

  /** Exactly when a known length leaves no room is every receive pass a standstill, whatever the
      socket would do: nothing is asked of it and nothing is reported. */
  lemma StandstillIff(c: Conn)
    requires Inv(c) && Error !in c.flags && ReceiveRequested in c.flags
    ensures (forall arrived, rv | Enabled(c, DoReceive(arrived, rv)) :: Step(c, DoReceive(arrived, rv)) == c)
       <==> c.recvLen > 0 && |c.recv| == c.recvCap
    ensures c.recvLen > 0 && |c.recv| == c.recvCap ==>
              forall arrived, rv :: Receive(c, arrived, rv) == (Success, c)
  {
    RequestedHasNone(c);
    if c.recvLen == 0 || |c.recv| < c.recvCap {
      assert Recv1(c) == (Success, Recv1(c).1, c) && Recv1(c).1 > 0;
      hide Inv;
      assert Enabled(c, DoReceive([], ConnectionError));
      assert Error in Step(c, DoReceive([], ConnectionError)).flags;
    }
  }

  lemma RequestedHasNone(c: Conn)
    requires Inv(c) && ReceiveRequested in c.flags
    ensures MessageReceived !in c.flags && MessageConsumed !in c.flags && |c.recv| <= c.recvCap
  {
  }

  /** No call leads out of a message that is too long but an error or the close. */
  lemma TooLongStays(c: Conn, a: Action)
    requires Inv(c) && Enabled(c, a) && TooLong(c)
    ensures var d := Step(c, a);
            (TooLong(d) && d.recv == c.recv && d.recvLen == c.recvLen) || Error in d.flags || d.flags == {Closed}
  {
    hide Splice, GetLE32, GetLE16;
    match a
    case DoReceive(arrived, rv) => StandstillIff(c);
    case _ =>
  }

  /** So in any run nothing is received any more, and nothing is exposed, before an error or the close. */
  lemma {:induction false} NothingMoreArrives(states: seq<Conn>, actions: seq<Action>, i: nat, j: nat)
    requires Run(states, actions) && i <= j < |states| && TooLong(states[i])
    requires forall k | i <= k <= j :: Error !in states[k].flags && states[k].flags != {Closed}
    ensures TooLong(states[j]) && states[j].recv == states[i].recv && !IsReceivedEvent(states[j])
    decreases j
  {
    hide Step, Enabled, Inv, TooLong;
    RunKeeps(states, actions, j);
    if i < j {
      NothingMoreArrives(states, actions, i, j - 1);
      RunKeeps(states, actions, j - 1);
      TooLongStays(states[j - 1], actions[j - 1]);
    }
    TooLongExposesNone(states[j]);
  }

  lemma TooLongExposesNone(c: Conn)
    requires Inv(c)
    ensures TooLong(c) ==> !IsReceivedEvent(c)
  {
  }

  /** A failing input: a message of 3000 bytes sent to a buffer of 2048 bytes. */
  lemma MessageTooLong(c0: Conn) returns (states: seq<Conn>, actions: seq<Action>)
    requires Fresh(c0) && c0.recvCap == 2048
    ensures Run(states, actions) && states[0] == c0 && TooLong(states[|actions|]) && Inv(states[|actions|])
  {
    hide Run, Inv, Fresh;
    states, actions := FilledRun(c0, 3000);
  }
}
