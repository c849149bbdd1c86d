/** One endpoint at work in place: the calls of the TCP transport on a connection object and its
    socket, seen as moves of the two-endpoint system. What Delivery proves about all runs of the
    system so holds of the objects, and the buffers never overflow. */
module Endpoint {
  import opened Base
  import opened MessageHeaders
  import opened Connection
  import opened Lifecycle
  import opened Delivery
  import opened Transport
  import opened Cursor
  import opened Writer
  import Headers
  import RoundTrip
  import opened Tree
  import opened WholeMessage

  /** The object with its socket is endpoint a of the system; the socket's two byte streams are
      the channels. */
  ghost predicate StandsFor(conn: TcpConnection, sock: Socket, s: System)
    reads conn, conn.recvBuffer, conn.sendBuffer, sock
  {
    conn.Valid() && SystemInv(s) && s.a.conn == conn.Value() && s.ba == sock.incoming && s.ab == sock.outgoing
  }

  /** The state after endpoint a's move. */
  function Moved(s: System, a: Action): System
    requires Inv(s.a.conn) && Enabled(s.a.conn, a) && Taken(a) <= |s.ba|
  {
    System(History(s.a, a), s.b, s.ab + Emitted(s.a.conn, a), s.ba[Taken(a)..])
  }

  lemma MovedKeeps(s: System, a: Action)
    requires SystemInv(s) && Possible(s.a, s.ba, a, s.b.conn.recvCap)
    ensures Enabled(s.a.conn, a) && Taken(a) <= |s.ba|
    ensures Moves(s, a, Moved(s, a)) && SystemInv(Moved(s, a))
  {
    hide Flow, Inv, Possible, Enabled, History, Emitted, Taken;
    PossibleEnabled(s.a, s.ba, s.ab, s.b, a);
    MovesKeeps(s, a, Moved(s, a));
  }

  lemma ReceiveMoved(s: System, arrived: seq<byte>, rv: Status, incoming: seq<byte>)
    requires SystemInv(s) && s.ba == arrived + incoming && |arrived| <= Recv1(s.a.conn).1
    ensures var a := DoReceive(arrived, rv);
            && Possible(s.a, s.ba, a, s.b.conn.recvCap) && Enabled(s.a.conn, a) && Taken(a) <= |s.ba|
            && Moved(s, a) == System(s.a.(conn := Receive(s.a.conn, arrived, rv).1), s.b, s.ab, incoming)
  {
    hide Flow, Inv, Receive, Recv1;
    assert arrived <= s.ba;
    MovedKeeps(s, DoReceive(arrived, rv));
    assert s.ba[|arrived|..] == incoming && s.ab + [] == s.ab;
  }

  /** A receive pass: the room that the transport relies on follows from the flow. */
  method ReceivePass(conn: TcpConnection, sock: Socket, ghost s: System)
          returns (rv: Status, ghost a: Action, ghost t: System)
    requires StandsFor(conn, sock, s)
    modifies conn, conn.recvBuffer, sock`incoming
    ensures StandsFor(conn, sock, t) && Moves(s, a, t) && a.DoReceive?
    ensures t.a.sent == s.a.sent && t.a.got == s.a.got && t.b == s.b
  {
    hide SystemInv, Flow, Inv, Receive, Recv1, Moved, Possible, Enabled, Moves;
    RoomInSystem(s);
    ghost var arrived, opRv;
    rv, arrived, opRv := conn.CommunicateRecv(sock);
    a := DoReceive(arrived, opRv);
    ReceiveMoved(s, arrived, opRv, sock.incoming);
    MovedKeeps(s, a);
    t := Moved(s, a);
  }

  lemma RoomInSystem(s: System)
    requires SystemInv(s)
    ensures Inv(s.a.conn) && |s.a.conn.recv| <= s.a.conn.recvCap
    ensures MessageConsumed in s.a.conn.flags ==> s.a.conn.recvLen <= |s.a.conn.recv|
    ensures |Recv1(s.a.conn).2.recv| + Recv1(s.a.conn).1 <= s.a.conn.recvCap
  {
    hide Flow, Inv, Recv1;
    InvBounds(s.a.conn);
    RoomToReceive(s.b.conn, s.b.sent, s.ba, s.a.conn, s.a.got);
  }

  lemma SendMoved(s: System, taken: nat, rv: Status, outgoing: seq<byte>)
    requires SystemInv(s) && Inv(s.a.conn) && s.a.conn.sendPos <= s.a.conn.sendLen && taken <= Send1(s.a.conn).1
    requires s.a.conn.sendPos + taken <= |s.a.conn.out|
    requires outgoing == s.ab + s.a.conn.out[s.a.conn.sendPos..s.a.conn.sendPos + taken]
    ensures var a := DoSend(taken, rv);
            && Possible(s.a, s.ba, a, s.b.conn.recvCap) && Enabled(s.a.conn, a) && Taken(a) <= |s.ba|
            && Moved(s, a) == System(s.a.(conn := Send(s.a.conn, taken, rv).1), s.b, outgoing, s.ba)
  {
    hide Flow, Inv, Send, Send1;
    assert s.ba[0..] == s.ba;
  }

  lemma SendRoom(s: System)
    requires SystemInv(s)
    ensures Inv(s.a.conn) && s.a.conn.sendPos <= s.a.conn.sendLen <= |s.a.conn.out|
    ensures s.a.conn.sendPos + Send1(s.a.conn).1 <= s.a.conn.sendLen
  {
    hide Flow, Inv, Send1;
    InvBounds(s.a.conn);
    Send1Room(s.a.conn, Send1(s.a.conn).1);
  }

  /** A send pass. */
  method SendPass(conn: TcpConnection, sock: Socket, ghost s: System)
          returns (rv: Status, ghost a: Action, ghost t: System)
    requires StandsFor(conn, sock, s)
    modifies conn, sock`outgoing
    ensures StandsFor(conn, sock, t) && Moves(s, a, t) && a.DoSend?
    ensures t.a.sent == s.a.sent && t.a.got == s.a.got && t.b == s.b
  {
    hide SystemInv, Flow, Inv, Send, Send1, Moved, Possible, Enabled, Moves;
    SendRoom(s);
    ghost var taken, opRv;
    rv, taken, opRv := conn.CommunicateSend(sock);
    a := DoSend(taken, opRv);
    SendMoved(s, taken, opRv, sock.outgoing);
    MovedKeeps(s, a);
    t := Moved(s, a);
  }

  lemma ControlMoved(s: System, arrived: seq<byte>, rv: Status, incoming: seq<byte>)
    requires SystemInv(s) && s.ba == arrived + incoming && |arrived| <= 4 && ClosedConsumed !in s.a.conn.flags
    requires arrived != [] ==> HandshakeReads(s.a.conn)
    ensures var a := DoControl(arrived, rv);
            && Inv(s.a.conn) && Possible(s.a, s.ba, a, s.b.conn.recvCap) && Enabled(s.a.conn, a) && Taken(a) <= |s.ba|
            && Moved(s, a) == System(s.a.(conn := Control(s.a.conn, arrived, rv).1), s.b, s.ab, incoming)
  {
    hide Flow, Inv, Control, HandshakeReads;
    assert arrived <= s.ba;
    MovedKeeps(s, DoControl(arrived, rv));
    assert s.ba[|arrived|..] == incoming && s.ab + [] == s.ab;
  }

  lemma ControlRoom(s: System)
    requires SystemInv(s)
    ensures s.a.conn.recvCap > 1024
  {
    hide Inv, AllMessages, Covers, KnownLength, Announced, Pending, Healthy;
  }

  /** A control pass within a session. */
  method ControlPass(conn: TcpConnection, sock: Socket, complete: Status, ghost s: System)
    returns (rv: Status, ghost a: Action, ghost t: System)
    requires StandsFor(conn, sock, s) && ClosedConsumed !in conn.flags
    modifies conn, conn.recvBuffer, sock`incoming
    ensures StandsFor(conn, sock, t) && Moves(s, a, t) && a.DoControl?
    ensures t.a.sent == s.a.sent && t.a.got == s.a.got && t.b == s.b
  {
    hide SystemInv, Flow, Inv, Control, Moved, Possible, Enabled, Moves, HandshakeReads;
    ControlRoom(s);
    ghost var arrived, opRv;
    rv, arrived, opRv := conn.CommunicateControl(sock, complete);
    a := DoControl(arrived, opRv);
    ControlMoved(s, arrived, opRv, sock.incoming);
    MovedKeeps(s, a);
    t := Moved(s, a);
  }

  /** The moves of endpoint a from s on. */
  ghost predicate MovesAlong(states: seq<System>, actions: seq<Action>) {
    && |states| == |actions| + 1
    && forall i | 0 <= i < |actions| :: Moves(states[i], actions[i], states[i + 1])
  }

  /** communicate: a control pass, then a receive and a send pass unless one before fails. With no
      demand on the environment but the invariant, the object makes one to three moves of a run. */
  method Communicate(conn: TcpConnection, sock: Socket, complete: Status, ghost s: System)
    returns (rv: Status, ghost states: seq<System>, ghost actions: seq<Action>)
    requires StandsFor(conn, sock, s) && ClosedConsumed !in conn.flags
    modifies conn, conn.recvBuffer, sock
    ensures MovesAlong(states, actions) && states[0] == s && 1 <= |actions| <= 3
    ensures actions[0].DoControl? && (|actions| > 1 ==> actions[1].DoReceive?) && (|actions| > 2 ==> actions[2].DoSend?)
    ensures StandsFor(conn, sock, states[|actions|])
    ensures var t := states[|actions|]; t.a.sent == s.a.sent && t.a.got == s.a.got && t.b == s.b
  {
    hide StandsFor, Moves, Possible, Enabled;
    ghost var a, t;
    rv, a, t := ControlPass(conn, sock, complete, s);
    states, actions := [s, t], [a];
    if rv != Success {
      if rv == Consumed {
        rv := Success;
      }
      return;
    }
    rv, a, t := ReceivePass(conn, sock, t);
    states, actions := states + [t], actions + [a];
    if rv != Success {
      return;
    }
    rv, a, t := SendPass(conn, sock, t);
    states, actions := states + [t], actions + [a];
  }

  // ---- sending and taking messages ----

  /** What the encoder writes has the tag, length and version that the framing relies on. */
  lemma EncodedIsFramed(ver: Headers.Version, mask: byte, m: Message, cap: nat)
    requires MessageAccepted(ver, mask, m, U32_MAX) && 64 <= |EncodeMessage(ver, mask, m)| <= cap
    ensures IsMessage(EncodeMessage(ver, mask, m), cap)
  {
    hide HeaderAccepted, EntryInRange, HasMultiple, EncodeMessage, EncodeEntries, CheckMessage, MessageHeaderBytes,
         MessageHeaderSize, At, ParseMessage, LE32, GetLE32, GetLE16, U32OfSize;
    var e := EncodeMessage(ver, mask, m);
    AtAll(e);
    RoundTrip.MessageHead(ver, mask, m, e, |e|);
    MessageSizes(ver, mask, m);
    RoundTrip.MessagePrefix(ver, mask, m.header, |e|, |m.entries|, e) by {
      EncodeShape(ver, mask, m);
      MessageHeaderLength(ver, m.header, mask, |e|, |m.entries|);
      AtSplit(e, 0, MessageHeaderBytes(ver, m.header, mask, |e|, |m.entries|), EncodeEntries(ver, m.entries));
    }
    FrameFields(ver, e);
  }

  lemma AtAll(s: seq<byte>)
    ensures At(s, 0, s)
  {
  }

  lemma EncodeShape(ver: Headers.Version, mask: byte, m: Message)
    requires HeaderAccepted(ver, m.header, mask)
    ensures var e := EncodeMessage(ver, mask, m);
            e == MessageHeaderBytes(ver, m.header, mask, |e|, |m.entries|) + EncodeEntries(ver, m.entries)
  {
    hide HeaderAccepted, MessageHeaderBytes, MessageHeaderSize, EncodeEntries;
    MessageSizes(ver, mask, m);
  }

  lemma FrameFields(ver: Headers.Version, e: seq<byte>)
    requires 64 <= |e| <= U32_MAX && At(e, 0, RRAC) && At(e, 4, LE32(U32OfSize(|e|)))
    requires ParseMessage(e).Ok?
    ensures e[..4] == RRAC && GetLE32(e[4..8]) == |e| && GetLE16(e[8..10]) in {2, 4}
  {
    hide ParseMessage2, ParseMessage4, LE32, GetLE32, GetLE16;
    U32Exact(|e|);
    LE32RoundTrip(|e|);
    assert e[0..4] == e[..4];
  }

  lemma Spliced(before: seq<byte>, after: seq<byte>, e: seq<byte>)
    requires AgreesOutside(before, after, 0, |e|) && At(after, 0, e)
    ensures |e| <= |before| && after == Splice(before, 0, e)
  {
    assert after == after[0..|e|] + after[|e|..];
  }

  /** A buffer in which nothing waits to be sent may be scribbled on. */
  lemma ScribbleKeeps(s: System, out: seq<byte>)
    requires SystemInv(s) && BeginSend(s.a.conn) == Success && |out| == |s.a.conn.out|
    ensures SystemInv(s.(a := s.a.(conn := s.a.conn.(out := out))))
  {
    var c, d := s.a.conn, s.a.conn.(out := out);
    assert Pending(c) == [] == Pending(d) && (Healthy(d) <==> Healthy(c)) && SameReceiving(c, d) && Inv(d);
    hide Flow, Inv, Pending, Healthy, SameReceiving;
    SenderSame(c, d, s.a.sent, s.ab, s.b.conn, s.b.got);
    ReceiverKeeps(s.b.conn, s.b.sent, s.ba, c, d, s.a.got);
  }

  lemma PostMoved(s: System, e: seq<byte>)
    requires SystemInv(s) && BeginSend(s.a.conn) == Success && 0 < |e| <= |s.a.conn.out|
        && IsMessage(e, s.b.conn.recvCap)
    ensures Inv(s.a.conn) && Possible(s.a, s.ba, DoPost(e), s.b.conn.recvCap) && Enabled(s.a.conn, DoPost(e))
    ensures Moved(s, DoPost(e)) == System(Side(Post(s.a.conn, e).1, s.a.sent + [e], s.a.got), s.b, s.ab, s.ba)
  {
    hide Flow, Inv, IsMessage, BeginSend, Splice;
    assert s.ba[0..] == s.ba && s.ab + [] == s.ab;
  }

  lemma ReadyToSend(c: Conn)
    requires Inv(c) && BeginSend(c) == Success
    ensures c.sendPos == 0
  {
  }

  /** begin_send_message, the message written into the send buffer, end_send_message: accepted
      exactly when the connection is ready and the message can be produced in the buffer; then its
      encoding is the next message sent, and otherwise nothing is. */
  method SendMessage(conn: TcpConnection, sock: Socket, ver: Headers.Version, mask: byte, m: Message, ghost s: System)
    returns (rv: Status, ghost t: System)
    requires StandsFor(conn, sock, s) && forall e | e in m.entries :: EntryShaped(e)
    requires MessageAccepted(ver, mask, m, conn.sendBuffer.Length) ==>
               64 <= |EncodeMessage(ver, mask, m)| <= s.b.conn.recvCap
    modifies conn`flags, conn`sendLen, conn.sendBuffer
    ensures StandsFor(conn, sock, t) && t.b == s.b && t.ab == s.ab && t.ba == s.ba && t.a.got == s.a.got
    ensures rv == Success <==> BeginSend(s.a.conn) == Success && MessageAccepted(ver, mask, m, conn.sendBuffer.Length)
    ensures rv == Success ==>
              && Moves(s, DoPost(EncodeMessage(ver, mask, m)), t)
              && t.a.sent == s.a.sent + [EncodeMessage(ver, mask, m)]
    ensures rv != Success ==> t == s.(a := s.a.(conn := s.a.conn.(out := t.a.conn.out)))
  {
    hide SystemInv, Flow, Inv, Moved, Possible, Enabled, Moves, HeaderAccepted, EntryInRange, HasMultiple, EntryShaped,
         EncodeMessage, At, AgreesOutside, IsMessage, MessageHeaderSize, SumOfEntries;
    t := s;
    rv := conn.BeginSend();
    if rv != Success {
      return;
    }
    InvOfEndpoint(s);
    ReadyToSend(s.a.conn);
    ghost var before := conn.sendBuffer[..];
    var size;
    rv, size := WriteMessage(conn.sendBuffer, ver, mask, m);
    ghost var out := conn.sendBuffer[..];
    ScribbleKeeps(s, out);
    if rv != Success {
      t := s.(a := s.a.(conn := s.a.conn.(out := out)));
      return;
    }
    ghost var e := EncodeMessage(ver, mask, m);
    Spliced(before, out, e);
    EncodedIsFramed(ver, mask, m, s.b.conn.recvCap);
    conn.EndSend(size);
    PostMoved(s, e);
    MovedKeeps(s, DoPost(e));
    t := Moved(s, DoPost(e));
  }

  lemma InvOfEndpoint(s: System)
    requires SystemInv(s)
    ensures Inv(s.a.conn)
  {
    hide Flow, Inv;
  }

  /** An exposed message of the flow passes the checks of the message reader. */
  lemma ExposedIsReadable(s: System)
    requires SystemInv(s) && IsReceivedEvent(s.a.conn)
    ensures MessageReceive(s.a.conn) == Ok(s.a.conn.recv)
    ensures |s.a.got| < |s.b.sent| && s.b.sent[|s.a.got|] <= s.a.conn.recv
    ensures s.a.conn.recvLen <= |s.a.conn.recv| && s.a.conn.recv[..s.a.conn.recvLen] == s.b.sent[|s.a.got|]
  {
    hide Flow, Inv, IsReceivedEvent, CheckMessage;
    var c := s.a.conn;
    ExposedIsNext(s.b.conn, s.b.sent, s.ba, c, s.a.got);
    Exposes(c);
    SentIsFramed(s);
    FramedPasses(s.b.sent[|s.a.got|], c.recv, c.recvCap);
  }

  lemma SentIsFramed(s: System)
    requires SystemInv(s)
    ensures AllMessages(s.b.sent, s.a.conn.recvCap)
  {
    hide Inv, AllMessages, Covers, KnownLength, Announced, Pending, Healthy;
  }

  lemma FramedPasses(m: seq<byte>, recv: seq<byte>, cap: nat)
    requires IsMessage(m, cap) && m <= recv
    ensures CheckMessage(recv, |recv|) == Success
  {
    hide GetLE32, GetLE16;
    assert recv[..4] == m[..4] && recv[4..8] == m[4..8];
  }

  /** message_receive and message_receive_consume: there is something to take exactly when a message
      is exposed; the reader then gets all received bytes, the next message of the peer first, and
      the message counts as consumed. */
  method TakeMessage(conn: TcpConnection, sock: Socket, ghost s: System) returns (r: Result<seq<byte>>, ghost t: System)
    requires StandsFor(conn, sock, s)
    modifies conn`flags
    ensures StandsFor(conn, sock, t)
    ensures r.Ok? <==> IsReceivedEvent(s.a.conn)
    ensures r.Ok? ==> |s.a.got| < |s.b.sent| && s.b.sent[|s.a.got|] <= r.value
    ensures r.Ok? ==> Moves(s, DoConsumeReceived, t) && t.a.got == s.a.got + [s.b.sent[|s.a.got|]]
    ensures r.Err? ==> t == s
  {
    hide SystemInv, Flow, Inv, Moved, Possible, Enabled, Moves;
    t := s;
    r := conn.MessageReceive();
    if r.Ok? {
      ExposedIsReadable(s);
      var rv := conn.MessageReceiveConsume();
      ConsumeMoved(s);
      MovedKeeps(s, DoConsumeReceived);
      t := Moved(s, DoConsumeReceived);
    } else if IsReceivedEvent(s.a.conn) {
      ExposedIsReadable(s);
    }
  }

  lemma ConsumeMoved(s: System)
    requires SystemInv(s) && IsReceivedEvent(s.a.conn) && s.a.conn.recvLen <= |s.a.conn.recv|
    ensures var c, a := s.a.conn, DoConsumeReceived;
            && Inv(c) && Possible(s.a, s.ba, a, s.b.conn.recvCap) && Enabled(c, a) && Taken(a) <= |s.ba|
            && Moved(s, a) == System(Side(c.(flags := c.flags + {MessageConsumed}), s.a.sent,
                s.a.got + [c.recv[..c.recvLen]]), s.b, s.ab, s.ba)
  {
    hide Flow, Inv;
    assert s.ba[0..] == s.ba && s.ab + [] == s.ab;
  }
}
