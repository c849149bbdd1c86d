/** Two raw TCP endpoints joined by two byte channels. Whatever the environment does with the
    transfer sizes, errors and the order of calls, messages arrive whole, in order and once. */
module Delivery {
  import opened Base
  import opened MessageHeaders
  import opened Cursor
  import Tree
  import RoundTrip
  import ReadsBack
  import WholeMessage
  import Headers
  import opened ScatterGather
  import opened Connection
  import opened Lifecycle

  /** One endpoint with its history: the messages it posted and those it consumed. */
  datatype Side = Side(conn: Conn, sent: seq<seq<byte>>, got: seq<seq<byte>>)

  /** ab carries the bytes from a to b, ba those from b to a. */
  datatype System = System(a: Side, b: Side, ab: seq<byte>, ba: seq<byte>)

  /** What the framing relies on: tag, length field, version, and a length between the first
      request of 64 bytes and the receiver's buffer. */
  predicate IsMessage(m: seq<byte>, cap: nat) {
    64 <= |m| <= cap && |m| <= U32_MAX && m[..4] == RRAC && GetLE32(m[4..8]) == |m| && GetLE16(m[8..10]) in {2, 4}
  }

  // ---- steps ----

  /** A call of the event API within one session, with what the channel in front has to offer. */
  predicate Possible(x: Side, incoming: seq<byte>, a: Action, peerCap: nat)
    requires Inv(x.conn)
  {
    match a
    case DoAccept(_) => false
    case DoConnect(_) => false
    case DoControl(arrived, _) =>
      ClosedConsumed !in x.conn.flags && arrived <= incoming && |arrived| <= if HandshakeReads(x.conn) then 4 else 0
    case DoReceive(arrived, _) => arrived <= incoming && |arrived| <= Recv1(x.conn).1
    case DoPost(m) => IsMessage(m, peerCap) && Enabled(x.conn, a)
    case DoSpoofedPost(m) => IsMessage(m, peerCap) && Enabled(x.conn, a)
    case _ => Enabled(x.conn, a)
  }

  /** Bytes taken from the incoming channel, and bytes put on the outgoing one. */
  function Taken(a: Action): nat {
    match a
    case DoControl(arrived, _) => |arrived|
    case DoReceive(arrived, _) => |arrived|
    case _ => 0
  }

  function Emitted(c: Conn, a: Action): seq<byte>
    requires Inv(c) && Enabled(c, a)
  {
    match a
    case DoSend(k, _) => Send1Room(c, k); c.out[c.sendPos..c.sendPos + k]
    case _ => []
  }

  lemma Send1Room(c: Conn, k: nat)
    requires Inv(c) && k <= Send1(c).1
    ensures c.sendPos + k <= c.sendLen
  {
  }

  function History(x: Side, a: Action): Side
    requires Inv(x.conn) && Enabled(x.conn, a)
  {
    var c := Step(x.conn, a);
    match a
    case DoPost(m) => if BeginSend(x.conn) == Success then Side(c, x.sent + [m], x.got) else x.(conn := c)
    case DoSpoofedPost(m) => if BeginSend(Spoofed(x.conn)) == Success then Side(c, x.sent + [m], x.got)
        else x.(conn := c)
    case DoConsumeReceived => Side(c, x.sent, x.got + [x.conn.recv[..x.conn.recvLen]])
    case _ => x.(conn := c)
  }

  // ---- the invariant of one direction ----

  /** Accepted bytes that have not been handed to the socket. */
  function Pending(c: Conn): seq<byte> {
    if (SendRequested in c.flags || Sending in c.flags) && c.sendPos <= c.sendLen <= |c.out|
        then c.out[c.sendPos..c.sendLen] else []
  }

  /** Number of consumed messages that are no longer in the receive buffer. */
  function Gone(c: Conn, got: seq<seq<byte>>): nat {
    if MessageConsumed in c.flags && got != [] then |got| - 1 else |got|
  }

  predicate Healthy(c: Conn) {
    Error !in c.flags && Closed !in c.flags
  }

  predicate AllMessages(ms: seq<seq<byte>>, cap: nat) {
    forall m | m in ms :: IsMessage(m, cap)
  }

  /** The message at the front of the buffer is the next one, as far as its length is known. */
  predicate KnownLength(c: Conn, rest: seq<seq<byte>>) {
    c.recvLen > 0 ==> rest != [] && c.recvLen == |rest[0]|
  }

  /** Between calls a complete preamble has been looked at, and a complete message announced. */
  predicate Announced(c: Conn) {
    Error !in c.flags ==> if c.recvLen == 0 then |c.recv| < 12 else MessageReceived in c.flags || |c.recv| < c.recvLen
  }

  /** The bytes under way make up the messages that are not gone: a prefix of them, and all
      of them as long as the sender is well. */
  predicate Covers(stream: seq<byte>, rest: seq<seq<byte>>, exact: bool) {
    stream <= Joined(rest) && (exact ==> stream == Joined(rest))
  }

  predicate Flow(snd: Conn, sent: seq<seq<byte>>, chan: seq<byte>, rcv: Conn, got: seq<seq<byte>>)
  {
    && (MessageConsumed in rcv.flags ==> got != [])
    && got <= sent && AllMessages(sent, rcv.recvCap) && rcv.recvCap > 1024
    && if Closed in rcv.flags then MessageReceived !in rcv.flags && ReceiveRequested !in rcv.flags
       else
         && Covers(rcv.recv + chan + Pending(snd), sent[Gone(rcv, got)..], Healthy(snd))
         && KnownLength(rcv, sent[Gone(rcv, got)..]) && Announced(rcv)
  }

  // ---- the sending end ----

  /** A call that leaves the unsent bytes alone, or loses them with an error or the close. */
  lemma SenderSame(c: Conn, d: Conn, sent: seq<seq<byte>>, chan: seq<byte>, rcv: Conn, got: seq<seq<byte>>)
    requires Flow(c, sent, chan, rcv, got)
    requires Pending(d) == Pending(c) || (Pending(d) == [] && !Healthy(d))
    requires Healthy(d) ==> Healthy(c)
    ensures Flow(d, sent, chan, rcv, got)
  {
    hide AllMessages, KnownLength, Announced, Joined, Pending, Healthy;
    if Pending(d) != Pending(c) && Closed !in rcv.flags {
      LostTail(rcv.recv + chan, Pending(c), Joined(sent[Gone(rcv, got)..]));
    }
  }

  lemma LostTail(x: seq<byte>, y: seq<byte>, whole: seq<byte>)
    requires x + y <= whole
    ensures x + [] <= whole
  {
  }

  /** Accepting a message appends it to what is under way. */
  lemma SenderPosts(c: Conn, d: Conn, m: seq<byte>, sent: seq<seq<byte>>, chan: seq<byte>, rcv: Conn,
          got: seq<seq<byte>>)
    requires Flow(c, sent, chan, rcv, got) && IsMessage(m, rcv.recvCap)
    requires Healthy(c) && Pending(c) == [] && Pending(d) == m
    ensures Flow(d, sent + [m], chan, rcv, got)
  {
    hide IsMessage, Announced, Joined, Pending, Healthy;
    if Closed !in rcv.flags {
      var k := Gone(rcv, got);
      var rest := sent[k..];
      assert (sent + [m])[k..] == rest + [m];
      JoinedConcat(rest, [m]);
      JoinedOne(m);
      assert rcv.recv + chan + [] == rcv.recv + chan;
    }
  }

  lemma JoinedOne(m: seq<byte>)
    ensures Joined([m]) == m
  {
    assert Joined([m]) == m + Joined([]) == m;
  }

  /** Bytes handed to the socket move to the channel. */
  lemma SenderSends(c: Conn, d: Conn, moved: seq<byte>, sent: seq<seq<byte>>, chan: seq<byte>, rcv: Conn,
          got: seq<seq<byte>>)
    requires Flow(c, sent, chan, rcv, got)
    requires Pending(c) == moved + Pending(d) || (moved <= Pending(c) && Pending(d) == [] && !Healthy(d))
    requires Healthy(d) ==> Healthy(c)
    ensures Flow(d, sent, chan + moved, rcv, got)
  {
    hide AllMessages, KnownLength, Announced, Joined, Pending, Healthy;
    if Closed !in rcv.flags {
      var left := Pending(c)[|moved|..];
      assert Pending(c) == moved + left;
      assert rcv.recv + chan + (moved + left) == rcv.recv + (chan + moved) + left;
      if Pending(d) != left {
        LostTail(rcv.recv + (chan + moved), left, Joined(sent[Gone(rcv, got)..]));
      }
    }
  }

  // ---- the receiving end ----

  /** A call that leaves the receiving half alone leaves the flow alone. */
  lemma ReceiverSame(snd: Conn, sent: seq<seq<byte>>, chan: seq<byte>, c: Conn, d: Conn, got: seq<seq<byte>>)
    requires Flow(snd, sent, chan, c, got)
    requires d.recv == c.recv && d.recvLen == c.recvLen && d.recvCap == c.recvCap
    requires (MessageConsumed in d.flags <==> MessageConsumed in c.flags)
        && (MessageReceived in d.flags <==> MessageReceived in c.flags)
    requires (Closed in d.flags <==> Closed in c.flags) && (Error in c.flags ==> Error in d.flags)
    requires Closed in d.flags ==> ReceiveRequested !in d.flags
    ensures Flow(snd, sent, chan, d, got)
  {
    hide AllMessages, Joined, Pending, Healthy;
  }

  /** A closed receiver takes no further part. */
  lemma ReceiverCloses(snd: Conn, sent: seq<seq<byte>>, chan: seq<byte>, c: Conn, d: Conn, got: seq<seq<byte>>)
    requires Flow(snd, sent, chan, c, got)
    requires d.recvCap == c.recvCap && d.flags == {Closed}
    ensures Flow(snd, sent, chan, d, got)
  {
    hide AllMessages, Joined, Pending, Healthy;
  }

  lemma HeadBytes(stream: seq<byte>, rest: seq<seq<byte>>, k: nat)
    requires stream <= Joined(rest) && 0 < |rest| && k <= |stream| && k <= |rest[0]|
    ensures stream[..k] == rest[0][..k]
  {
  }

  lemma NonEmpty(stream: seq<byte>, rest: seq<seq<byte>>)
    requires stream <= Joined(rest) && 0 < |stream|
    ensures 0 < |rest|
  {
  }

  /** The exposed bytes are the next message. */
  lemma ExposedIsNext(snd: Conn, sent: seq<seq<byte>>, chan: seq<byte>, rcv: Conn, got: seq<seq<byte>>)
    requires Inv(rcv) && Flow(snd, sent, chan, rcv, got) && IsReceivedEvent(rcv)
    ensures |got| < |sent| && rcv.recv[..rcv.recvLen] == sent[|got|]
  {
    hide AllMessages, Joined, Pending, Healthy, Announced;
    var rest := sent[|got|..];
    HeadBytes(rcv.recv + chan + Pending(snd), rest, rcv.recvLen);
    assert (rcv.recv + chan + Pending(snd))[..rcv.recvLen] == rcv.recv[..rcv.recvLen];
  }

  /** Consuming adds exactly the next message. */
  lemma ReceiverConsumes(snd: Conn, sent: seq<seq<byte>>, chan: seq<byte>, c: Conn, got: seq<seq<byte>>)
    requires Inv(c) && Flow(snd, sent, chan, c, got) && IsReceivedEvent(c)
    ensures Flow(snd, sent, chan, c.(flags := c.flags + {MessageConsumed}), got + [c.recv[..c.recvLen]])
  {
    ExposedIsNext(snd, sent, chan, c, got);
    hide AllMessages, Joined, Pending, Healthy, Inv;
    assert got + [sent[|got|]] == sent[..|got| + 1];
  }

  /** The preamble of a message in the flow is accepted, and it gives the message's length. */
  lemma PreambleAccepted(c: Conn, ahead: seq<byte>, rest: seq<seq<byte>>)
    requires c.recv + ahead <= Joined(rest) && AllMessages(rest, c.recvCap) && KnownLength(c, rest)
    ensures VerifyPreamble(c).0 == Success
    ensures var d := VerifyPreamble(c).1;
            d == c.(recvLen := d.recvLen) && KnownLength(d, rest) && (|c.recv| >= 12 ==> d.recvLen > 0)
  {
    hide Joined;
    if |c.recv| >= 12 && c.recvLen == 0 {
      NonEmpty(c.recv + ahead, rest);
      assert rest[0] in rest;
      var m := rest[0];
      HeadBytes(c.recv + ahead, rest, 12);
      assert c.recv[..12] == (c.recv + ahead)[..12] == m[..12];
      assert c.recv[..4] == c.recv[..12][..4] == m[..12][..4] == m[..4];
      assert c.recv[4..8] == c.recv[..12][4..8] == m[..12][4..8] == m[4..8];
      assert c.recv[8..10] == c.recv[..12][8..10] == m[..12][8..10] == m[8..10];
    }
  }

  lemma Recv2Flow(c: Conn, rv: Status, ahead: seq<byte>, rest: seq<seq<byte>>)
    requires c.recv + ahead <= Joined(rest) && AllMessages(rest, c.recvCap) && KnownLength(c, rest)
    ensures var d := Recv2(c, rv).1;
            && d.recv == c.recv && d.recvCap == c.recvCap && KnownLength(d, rest) && Announced(d)
            && (MessageConsumed in d.flags <==> MessageConsumed in c.flags)
            && (Closed in d.flags <==> Closed in c.flags)
            && (rv == Success ==> (Error in d.flags <==> Error in c.flags))
  {
    hide Joined, VerifyPreamble, AllMessages;
    PreambleAccepted(c, ahead, rest);
  }

  lemma ArriveShift(recv: seq<byte>, arrived: seq<byte>, chan: seq<byte>, pending: seq<byte>)
    requires arrived <= chan
    ensures (recv + arrived) + chan[|arrived|..] + pending == recv + chan + pending
    ensures (recv + arrived) + (chan[|arrived|..] + pending) == recv + chan + pending
  {
    assert chan == arrived + chan[|arrived|..];
  }

  /** Dropping a consumed message drops exactly the first of the messages in the flow. */
  lemma CompactedFlow(snd: Conn, sent: seq<seq<byte>>, chan: seq<byte>, c: Conn, got: seq<seq<byte>>)
    requires Inv(c) && Flow(snd, sent, chan, c, got) && Closed !in c.flags
    ensures var d := Compacted(c);
            && Closed !in d.flags && MessageConsumed !in d.flags && d.recvCap == c.recvCap
            && Covers(d.recv + chan + Pending(snd), sent[|got|..], Healthy(snd)) && KnownLength(d, sent[|got|..])
            && (MessageConsumed in c.flags ==> d.recvLen == 0 && |d.recv| + 64 <= d.recvCap)
  {
    hide Joined, Pending, Healthy, Announced;
    if MessageConsumed in c.flags {
      var rest := sent[|got| - 1..];
      assert rest[0] in sent;
      assert sent[|got|..] == rest[1..];
      FirstDropped(c.recv, chan + Pending(snd), rest, c.recvLen);
      assert c.recv + (chan + Pending(snd)) == c.recv + chan + Pending(snd);
      assert c.recv[c.recvLen..] + (chan + Pending(snd)) == c.recv[c.recvLen..] + chan + Pending(snd);
    }
  }

  lemma FirstDropped(recv: seq<byte>, ahead: seq<byte>, rest: seq<seq<byte>>, n: nat)
    requires 0 < |rest| && n == |rest[0]| <= |recv| && recv + ahead <= Joined(rest)
    ensures recv[n..] + ahead <= Joined(rest[1..])
    ensures recv + ahead == Joined(rest) ==> recv[n..] + ahead == Joined(rest[1..])
  {
    assert Joined(rest) == rest[0] + Joined(rest[1..]);
    assert recv[n..] + ahead == (recv + ahead)[n..];
    assert Joined(rest)[n..] == Joined(rest[1..]);
  }

  /** There is always room for what the code asks the socket for. */
  lemma RoomToReceive(snd: Conn, sent: seq<seq<byte>>, chan: seq<byte>, c: Conn, got: seq<seq<byte>>)
    requires Inv(c) && Flow(snd, sent, chan, c, got)
    ensures |Recv1(c).2.recv| + Recv1(c).1 <= c.recvCap
  {
    hide Joined, Pending, Healthy, AllMessages, Covers, KnownLength;
    if Closed !in c.flags && MessageConsumed in c.flags {
      CompactedFlow(snd, sent, chan, c, got);
    }
  }

  lemma ReceiverReceives(snd: Conn, sent: seq<seq<byte>>, chan: seq<byte>, c: Conn, arrived: seq<byte>, rv: Status,
          got: seq<seq<byte>>)
    requires Inv(c) && Flow(snd, sent, chan, c, got)
    requires arrived <= chan && |arrived| <= Recv1(c).1
    ensures Enabled(c, DoReceive(arrived, rv))
    ensures Flow(snd, sent, chan[|arrived|..], Receive(c, arrived, rv).1, got)
  {
    RoomToReceive(snd, sent, chan, c, got);
    hide Joined, Pending, Healthy, Inv, Recv2;
    var n := Recv1(c).1;
    if n == 0 {
      assert chan[|arrived|..] == chan;
      QuietReceive(snd, sent, chan, c, arrived, rv, got);
    } else {
      BusyReceive(snd, sent, chan, c, arrived, rv, got);
    }
  }

  /** Nothing is asked of the socket: nothing changes. */
  lemma QuietReceive(snd: Conn, sent: seq<seq<byte>>, chan: seq<byte>, c: Conn, arrived: seq<byte>, rv: Status,
          got: seq<seq<byte>>)
    requires Inv(c) && Flow(snd, sent, chan, c, got) && Recv1(c).1 == 0
    ensures Flow(snd, sent, chan, Receive(c, arrived, rv).1, got)
  {
    hide Joined, Pending, Healthy, AllMessages, Covers, KnownLength, Announced;
  }

  lemma BusyReceive(snd: Conn, sent: seq<seq<byte>>, chan: seq<byte>, c: Conn, arrived: seq<byte>, rv: Status,
          got: seq<seq<byte>>)
    requires Inv(c) && Flow(snd, sent, chan, c, got) && Recv1(c).1 > 0
    requires arrived <= chan
    ensures Flow(snd, sent, chan[|arrived|..], Receive(c, arrived, rv).1, got)
  {
    OpenWhenBusy(c, got, snd, sent, chan);
    CompactedFlow(snd, sent, chan, c, got);
    hide Joined, Pending, Healthy, Inv, Recv2, AllMessages;
    var d := Compacted(c);
    var rest := sent[|got|..];
    ArriveShift(d.recv, arrived, chan, Pending(snd));
    SuffixMessages(sent, |got|, c.recvCap);
    var e := d.(recv := d.recv + arrived);
    Recv2Flow(e, rv, chan[|arrived|..] + Pending(snd), rest);
  }

  lemma SuffixMessages(sent: seq<seq<byte>>, k: nat, cap: nat)
    requires AllMessages(sent, cap) && k <= |sent|
    ensures AllMessages(sent[k..], cap)
  {
  }

  lemma OpenWhenBusy(c: Conn, got: seq<seq<byte>>, snd: Conn, sent: seq<seq<byte>>, chan: seq<byte>)
    requires Inv(c) && Flow(snd, sent, chan, c, got) && Recv1(c).1 > 0
    ensures Closed !in c.flags
  {
    hide Joined, Pending, Healthy, AllMessages, Covers, KnownLength, Announced;
  }

  /** The server's handshake reads at most seven bytes, which stay in the flow. */
  lemma ReceiverShakes(snd: Conn, sent: seq<seq<byte>>, chan: seq<byte>, c: Conn, arrived: seq<byte>, rv: Status,
          got: seq<seq<byte>>)
    requires Inv(c) && Flow(snd, sent, chan, c, got) && HandshakeReads(c)
    requires arrived <= chan && |arrived| <= 4
    ensures Enabled(c, DoControl(arrived, rv))
    ensures Flow(snd, sent, chan[|arrived|..], Control(c, arrived, rv).1, got)
  {
    hide Joined, Pending, Healthy, AllMessages;
    ArriveShift(c.recv, arrived, chan, Pending(snd));
  }

  // ---- one call of one endpoint, both directions ----

  /** Endpoint x with the channel it reads from and the peer's half of each direction. */
  ghost predicate Ends(x: Side, incoming: seq<byte>, outgoing: seq<byte>, y: Side) {
    && Inv(x.conn) && Flow(x.conn, x.sent, outgoing, y.conn, y.got) && Flow(y.conn, y.sent, incoming, x.conn, x.got)
  }

  lemma PossibleEnabled(x: Side, incoming: seq<byte>, outgoing: seq<byte>, y: Side, a: Action)
    requires Ends(x, incoming, outgoing, y) && Possible(x, incoming, a, y.conn.recvCap)
    ensures Enabled(x.conn, a) && Taken(a) <= |incoming|
  {
    hide Inv, Flow, Enabled;
    match a
    case DoReceive(arrived, rv) =>
      ReceiverReceives(y.conn, y.sent, incoming, x.conn, arrived, rv, x.got);
    case DoControl(arrived, rv) =>
      if HandshakeReads(x.conn) {
        ReceiverShakes(y.conn, y.sent, incoming, x.conn, arrived, rv, x.got);
      } else {
        ControlEnabled(x.conn, arrived, rv);
      }
    case _ =>
  }

  lemma ControlEnabled(c: Conn, arrived: seq<byte>, rv: Status)
    requires Inv(c) && arrived == []
    ensures Enabled(c, DoControl(arrived, rv))
  {
  }

  // ---- every call, seen by the direction it sends into ----

  predicate Unsent(c: Conn) {
    SendRequested in c.flags || Sending in c.flags
  }

  /** Either nothing was handed over, or the position advanced by k and what remains is still
      to be sent, unless there is none or an error took it. */
  predicate SendShape(c: Conn, d: Conn, k: nat) {
    && d.out == c.out && (Healthy(d) ==> Healthy(c))
    && if !Unsent(c) then k == 0 && !Unsent(d)
       else
         && d.sendLen == c.sendLen && d.sendPos == c.sendPos + k <= c.sendLen <= |c.out|
         && (Unsent(d) || d.sendPos == d.sendLen || !Healthy(d))
  }

  lemma SendShapes(c: Conn, k: nat, rv: Status)
    requires Inv(c) && Enabled(c, DoSend(k, rv))
    ensures SendShape(c, Send(c, k, rv).1, k)
  {
  }

  lemma SendMoves(c: Conn, d: Conn, k: nat)
    requires c.sendPos + k <= c.sendLen <= |c.out| && SendShape(c, d, k)
    ensures var moved := c.out[c.sendPos..c.sendPos + k];
            && (Healthy(d) ==> Healthy(c))
            && (Pending(c) == moved + Pending(d) || (moved <= Pending(c) && Pending(d) == [] && !Healthy(d)))
  {
    hide Healthy;
    assert c.out[c.sendPos..c.sendLen] == c.out[c.sendPos..c.sendPos + k] + c.out[c.sendPos + k..c.sendLen];
  }

  lemma PostPending(c: Conn, m: seq<byte>)
    requires Inv(c) && 0 < |m| <= |c.out| && BeginSend(c) == Success
    ensures Healthy(c) && Pending(c) == [] && Pending(Post(c, m).1) == m
  {
    hide Splice;
    U32Exact(|m|);
    SpliceFront(c.out, m);
  }

  lemma SpliceFront(out: seq<byte>, m: seq<byte>)
    requires |m| <= |out|
    ensures Splice(out, 0, m)[0..|m|] == m
  {
  }

  lemma SpoofedPostPending(c: Conn, m: seq<byte>)
    requires Inv(c) && Enabled(c, DoSpoofedPost(m)) && BeginSend(Spoofed(c)) == Success
    ensures Healthy(c) && Pending(c) == [] && Pending(Step(c, DoSpoofedPost(m))) == m
  {
    hide Splice;
    U32Exact(|m|);
    SpliceFront(c.out, m);
  }

  predicate OnlyFlags(a: Action) {
    || a.DoMarkConnected? || a.DoConsumeReceived? || a.DoConsumeSent? || a.DoConsumeConnected?
    || a.DoConsumeClientSocket?
    || a.DoConsumeClosed? || a.DoSetNodeFlag? || a.DoClose? || a.DoError?
  }

  lemma FlagsLeaveSending(c: Conn, a: Action)
    requires Inv(c) && Enabled(c, a) && OnlyFlags(a)
    ensures Pending(Step(c, a)) == Pending(c) && (Healthy(Step(c, a)) ==> Healthy(c))
  {
    hide Inv;
  }

  lemma ControlLeavesSending(c: Conn, arrived: seq<byte>, rv: Status)
    requires Inv(c) && ClosedConsumed !in c.flags
    ensures var d := Control(c, arrived, rv).1;
            (Pending(d) == Pending(c) || (Pending(d) == [] && !Healthy(d))) && (Healthy(d) ==> Healthy(c))
  {
    hide Inv;
  }

  lemma SenderStepSends(x: Side, k: nat, rv: Status, chan: seq<byte>, rcv: Conn, got: seq<seq<byte>>)
    requires Inv(x.conn) && Enabled(x.conn, DoSend(k, rv)) && Flow(x.conn, x.sent, chan, rcv, got)
    ensures Flow(Send(x.conn, k, rv).1, x.sent, chan + Emitted(x.conn, DoSend(k, rv)), rcv, got)
  {
    hide Inv, Flow, Pending, Healthy, Send, Send1, SendShape;
    var c := x.conn;
    InvBounds(c);
    var d := Send(c, k, rv).1;
    SendShapes(c, k, rv);
    Send1Room(c, k);
    SendMoves(c, d, k);
    SenderSends(c, d, c.out[c.sendPos..c.sendPos + k], x.sent, chan, rcv, got);
  }

  /** A post is accepted, or changes nothing. */
  lemma PostHistory(x: Side, a: Action)
    requires Inv(x.conn) && Enabled(x.conn, a) && IsPost(a)
    ensures var ready := BeginSend(if a.DoPost? then x.conn else Spoofed(x.conn)) == Success;
            History(x, a) == if ready then Side(Step(x.conn, a), x.sent + [a.message], x.got) else x
  {
    hide Inv, Splice, BeginSend;
  }

  lemma PostStepPending(c: Conn, a: Action)
    requires Inv(c) && Enabled(c, a) && IsPost(a) && BeginSend(if a.DoPost? then c else Spoofed(c)) == Success
    ensures Healthy(c) && Pending(c) == [] && Pending(Step(c, a)) == a.message
  {
    hide Inv, Pending, Healthy, Splice, BeginSend;
    if a.DoPost? {
      PostPending(c, a.message);
    } else {
      SpoofedPostPending(c, a.message);
    }
  }

  lemma SenderStepPosts(x: Side, a: Action, chan: seq<byte>, rcv: Conn, got: seq<seq<byte>>)
    requires Inv(x.conn) && Enabled(x.conn, a) && Flow(x.conn, x.sent, chan, rcv, got)
    requires IsPost(a) && IsMessage(a.message, rcv.recvCap)
    ensures Flow(History(x, a).conn, History(x, a).sent, chan, rcv, got)
  {
    var m := a.message;
    hide *;
    PostHistory(x, a);
    if BeginSend(if a.DoPost? then x.conn else Spoofed(x.conn)) == Success {
      PostStepPending(x.conn, a);
      SenderPosts(x.conn, Step(x.conn, a), m, x.sent, chan, rcv, got);
    }
  }

  lemma SenderStepKeepsPending(x: Side, a: Action, chan: seq<byte>, rcv: Conn, got: seq<seq<byte>>)
    requires Inv(x.conn) && Enabled(x.conn, a) && Flow(x.conn, x.sent, chan, rcv, got)
    requires !a.DoAccept? && !a.DoConnect? && !IsPost(a) && !a.DoSend?
        && (a.DoControl? ==> ClosedConsumed !in x.conn.flags)
    ensures Flow(Step(x.conn, a), x.sent, chan, rcv, got)
  {
    var c, d := x.conn, Step(x.conn, a);
    hide Flow, Inv, Enabled, Pending, Healthy, Receive, Control, SameSending;
    match a
    case DoReceive(arrived, rv) =>
      ReceiveLeavesSending(c, arrived, rv);
      SameSendingPending(c, d);
      SenderSame(c, d, x.sent, chan, rcv, got);
    case DoControl(arrived, rv) =>
      ControlLeavesSending(c, arrived, rv);
      SenderSame(c, d, x.sent, chan, rcv, got);
    case _ =>
      FlagsLeaveSending(c, a);
      hide Step;
      SenderSame(c, d, x.sent, chan, rcv, got);
  }

  lemma SameSendingPending(c: Conn, d: Conn)
    requires SameSending(c, d)
    ensures Pending(d) == Pending(c) && (Healthy(d) ==> Healthy(c))
  {
  }

  lemma SenderStep(x: Side, a: Action, chan: seq<byte>, rcv: Conn, got: seq<seq<byte>>)
    requires Inv(x.conn) && Enabled(x.conn, a) && Flow(x.conn, x.sent, chan, rcv, got)
    requires !a.DoAccept? && !a.DoConnect? && (a.DoControl? ==> ClosedConsumed !in x.conn.flags)
    requires IsPost(a) ==> IsMessage(a.message, rcv.recvCap)
    ensures Flow(History(x, a).conn, History(x, a).sent, chan + Emitted(x.conn, a), rcv, got)
  {
    hide Flow, Inv, Enabled, Send, Step, BeginSend, IsMessage;
    assert chan + [] == chan;
    if a.DoSend? {
      SenderStepSends(x, a.taken, a.rv, chan, rcv, got);
      StepSends(x.conn, a.taken, a.rv);
    } else if IsPost(a) {
      SenderStepPosts(x, a, chan, rcv, got);
    } else {
      SenderStepKeepsPending(x, a, chan, rcv, got);
    }
  }

  lemma StepSends(c: Conn, k: nat, rv: Status)
    requires Inv(c) && Enabled(c, DoSend(k, rv))
    ensures c.sendPos <= c.sendLen && Step(c, DoSend(k, rv)) == Send(c, k, rv).1
  {
    hide Send;
  }

  // ---- every call, seen by the direction it receives from ----

  predicate SameReceiving(c: Conn, d: Conn) {
    && d.recv == c.recv && d.recvLen == c.recvLen && d.recvCap == c.recvCap
    && (MessageConsumed in d.flags <==> MessageConsumed in c.flags)
    && (MessageReceived in d.flags <==> MessageReceived in c.flags)
    && (Closed in d.flags <==> Closed in c.flags) && (Error in c.flags ==> Error in d.flags)
    && (Closed in d.flags ==> (ReceiveRequested in d.flags <==> ReceiveRequested in c.flags))
  }

  lemma SendLeavesReceiving(c: Conn, k: nat, rv: Status)
    requires Inv(c)
    ensures c.sendPos <= c.sendLen
    ensures SameReceiving(c, Send(c, k, rv).1)
  {
    hide Inv, Send1, Send2, SameReceiving;
    InvBounds(c);
    Send1LeavesReceiving(c);
    var d := Send1(c).2;
    Send2LeavesReceiving(d, k, rv);
    SameReceivingTrans(c, d, Send2(d.(sendPos := d.sendPos + k), rv).1);
  }

  lemma Send1LeavesReceiving(c: Conn)
    requires c.sendPos <= c.sendLen
    ensures SameReceiving(c, Send1(c).2)
  {
  }

  lemma Send2LeavesReceiving(c: Conn, k: nat, rv: Status)
    ensures SameReceiving(c, Send2(c.(sendPos := c.sendPos + k), rv).1)
  {
  }

  lemma SameReceivingTrans(c: Conn, d: Conn, e: Conn)
    requires SameReceiving(c, d) && SameReceiving(d, e)
    ensures SameReceiving(c, e)
  {
  }

  lemma PostLeavesReceiving(c: Conn, a: Action)
    requires Inv(c) && Enabled(c, a) && (a.DoPost? || a.DoSpoofedPost?)
    ensures SameReceiving(c, Step(c, a))
  {
    hide Splice;
  }

  lemma FlagsLeaveReceiving(c: Conn, a: Action)
    requires Inv(c) && Enabled(c, a) && OnlyFlags(a) && a != DoConsumeReceived
    ensures SameReceiving(c, Step(c, a))
  {
  }

  lemma ControlLeavesReceiving(c: Conn, rv: Status)
    requires Inv(c) && ClosedConsumed !in c.flags
    ensures var d := Control(c, [], rv).1;
            SameReceiving(c, d) || (d.flags == {Closed} && d.recvCap == c.recvCap)
  {
    assert c.recv + [] == c.recv;
  }

  lemma ReceiverKeeps(snd: Conn, sent: seq<seq<byte>>, chan: seq<byte>, c: Conn, d: Conn, got: seq<seq<byte>>)
    requires Flow(snd, sent, chan, c, got)
    requires SameReceiving(c, d) || (d.flags == {Closed} && d.recvCap == c.recvCap)
    ensures Flow(snd, sent, chan, d, got)
  {
    hide Flow;
    if SameReceiving(c, d) {
      ClosedRequestsNothing(snd, sent, chan, c, got);
      ReceiverSame(snd, sent, chan, c, d, got);
    } else {
      ReceiverCloses(snd, sent, chan, c, d, got);
    }
  }

  lemma ClosedRequestsNothing(snd: Conn, sent: seq<seq<byte>>, chan: seq<byte>, c: Conn, got: seq<seq<byte>>)
    requires Flow(snd, sent, chan, c, got)
    ensures Closed in c.flags ==> ReceiveRequested !in c.flags
  {
    hide Joined, Pending, Healthy, AllMessages, Covers, KnownLength, Announced;
  }

  lemma ReceiverStep(snd: Conn, sent: seq<seq<byte>>, chan: seq<byte>, x: Side, a: Action, peerCap: nat)
    requires Inv(x.conn) && Flow(snd, sent, chan, x.conn, x.got)
    requires Possible(x, chan, a, peerCap) && Enabled(x.conn, a) && Taken(a) <= |chan|
    ensures Flow(snd, sent, chan[Taken(a)..], History(x, a).conn, History(x, a).got)
  {
    var c, d := x.conn, Step(x.conn, a);
    assert chan[0..] == chan;
    match a
    case DoSend(k, rv) =>
      SendLeavesReceiving(c, k, rv);
      hide Flow, Inv, Enabled, Possible, Send;
      ReceiverKeeps(snd, sent, chan, c, d, x.got);
    case DoReceive(arrived, rv) =>
      hide Flow, Inv, Enabled, Receive, Recv1;
      ReceiverReceives(snd, sent, chan, c, arrived, rv, x.got);
    case DoControl(arrived, rv) =>
      if HandshakeReads(c) {
        hide Flow, Inv, Enabled, Control;
        ReceiverShakes(snd, sent, chan, c, arrived, rv, x.got);
      } else {
        assert arrived == [];
        ControlLeavesReceiving(c, rv);
        hide Flow, Inv, Enabled, Control;
        ReceiverKeeps(snd, sent, chan, c, d, x.got);
      }
    case DoConsumeReceived =>
      hide Flow, Inv;
      ReceiverConsumes(snd, sent, chan, c, x.got);
    case DoPost(m) =>
      PostLeavesReceiving(c, a);
      hide Flow, Inv, Enabled, Possible, Step, BeginSend;
      ReceiverKeeps(snd, sent, chan, c, d, x.got);
    case DoSpoofedPost(m) =>
      PostLeavesReceiving(c, a);
      hide Flow, Inv, Enabled, Possible, Step, BeginSend;
      ReceiverKeeps(snd, sent, chan, c, d, x.got);
    case _ =>
      FlagsLeaveReceiving(c, a);
      hide Flow, Inv, Enabled, Possible, Step;
      ReceiverKeeps(snd, sent, chan, c, d, x.got);
  }

  // ---- runs of the two endpoints ----

  datatype Who = A | B

  function Swap(s: System): System {
    System(s.b, s.a, s.ba, s.ab)
  }

  ghost predicate SystemInv(s: System) {
    Ends(s.a, s.ba, s.ab, s.b) && Ends(s.b, s.ab, s.ba, s.a)
  }

  /** Endpoint a makes a call. */
  ghost predicate Moves(s: System, a: Action, t: System) {
    && Inv(s.a.conn) && Possible(s.a, s.ba, a, s.b.conn.recvCap)
    && (Enabled(s.a.conn, a) && Taken(a) <= |s.ba| ==>
          t == System(History(s.a, a), s.b, s.ab + Emitted(s.a.conn, a), s.ba[Taken(a)..]))
  }

  ghost predicate Next(s: System, who: Who, a: Action, t: System) {
    if who == A then Moves(s, a, t) else Moves(Swap(s), a, Swap(t))
  }

  lemma HistoryConn(x: Side, a: Action)
    requires Inv(x.conn) && Enabled(x.conn, a)
    ensures History(x, a).conn == Step(x.conn, a)
  {
    hide Step, Inv, Enabled, BeginSend;
  }

  lemma MovesKeeps(s: System, a: Action, t: System)
    requires SystemInv(s) && Moves(s, a, t)
    ensures SystemInv(t)
  {
    PossibleEnabled(s.a, s.ba, s.ab, s.b, a);
    PeerFits(s, a);
    HistoryConn(s.a, a);
    hide Flow, Inv, Enabled, Possible, History, Step, IsMessage, Emitted;
    SenderStep(s.a, a, s.ab, s.b.conn, s.b.got);
    ReceiverStep(s.b.conn, s.b.sent, s.ba, s.a, a, s.b.conn.recvCap);
    StepKeeps(s.a.conn, a);
  }

  lemma PeerFits(s: System, a: Action)
    requires SystemInv(s) && Possible(s.a, s.ba, a, s.b.conn.recvCap)
    ensures !a.DoAccept? && !a.DoConnect? && (a.DoControl? ==> ClosedConsumed !in s.a.conn.flags)
    ensures a.DoPost? || a.DoSpoofedPost? ==> IsMessage(a.message, s.b.conn.recvCap)
  {
    hide Flow, Inv, IsMessage;
  }

  lemma SwapInv(s: System)
    requires SystemInv(s)
    ensures SystemInv(Swap(s)) && Swap(Swap(s)) == s
  {
    hide Flow, Inv;
  }

  lemma NextKeeps(s: System, who: Who, a: Action, t: System)
    requires SystemInv(s) && Next(s, who, a, t)
    ensures SystemInv(t)
  {
    hide SystemInv, Moves;
    if who == A {
      MovesKeeps(s, a, t);
    } else {
      SwapInv(s);
      MovesKeeps(Swap(s), a, Swap(t));
      SwapInv(Swap(t));
    }
  }

  /** A client that has just connected and a server that has just accepted it, either way around. */
  ghost predicate Opened(s: System) {
    && OpenedSide(s.a) && OpenedSide(s.b) && s.a.conn.isServer != s.b.conn.isServer && s.ab == [] && s.ba == []
  }

  ghost predicate OpenedSide(x: Side) {
    exists c: Conn :: Fresh(c) && c.recvCap > 1024 && x.sent == [] && x.got == []
      && (x.conn == Accept2(c, TCP_TRANSPORT) || x.conn == Connect2(c, TCP_TRANSPORT))
  }

  lemma OpenedFlow(x: Side, y: Side)
    requires OpenedSide(x) && OpenedSide(y)
    ensures Inv(x.conn) && Flow(x.conn, x.sent, [], y.conn, y.got)
  {
    assert y.conn.recv + [] + [] == [];
  }

  ghost predicate SystemRun(states: seq<System>, steps: seq<(Who, Action)>) {
    && |states| == |steps| + 1 && Opened(states[0])
    && forall i | 0 <= i < |steps| :: Next(states[i], steps[i].0, steps[i].1, states[i + 1])
  }

  lemma {:induction false} SystemRunKeeps(states: seq<System>, steps: seq<(Who, Action)>, i: nat)
    requires SystemRun(states, steps) && i < |states|
    ensures SystemInv(states[i])
  {
    hide Next, OpenedSide, Flow, Inv;
    if i == 0 {
      OpenedFlow(states[0].a, states[0].b);
      OpenedFlow(states[0].b, states[0].a);
    } else {
      SystemRunKeeps(states, steps, i - 1);
      hide SystemInv;
      NextKeeps(states[i - 1], steps[i - 1].0, steps[i - 1].1, states[i]);
    }
  }

  /** Ordered, exact delivery: at every moment of every run what each endpoint consumed is a
      prefix of what the other sent, byte for byte; a message that is exposed is the next one;
      and the receive buffer never overflows, not even by what the next call may ask for. */
  lemma DeliveredInOrder(states: seq<System>, steps: seq<(Who, Action)>, i: nat)
    requires SystemRun(states, steps) && i < |states|
    ensures var s := states[i];
            && s.b.got <= s.a.sent && s.a.got <= s.b.sent
            && Inv(s.a.conn) && Inv(s.b.conn)
            && (IsReceivedEvent(s.b.conn) ==>
                  |s.b.got| < |s.a.sent| && s.b.conn.recv[..s.b.conn.recvLen] == s.a.sent[|s.b.got|])
            && (IsReceivedEvent(s.a.conn) ==>
                  |s.a.got| < |s.b.sent| && s.a.conn.recv[..s.a.conn.recvLen] == s.b.sent[|s.a.got|])
            && |Recv1(s.a.conn).2.recv| + Recv1(s.a.conn).1 <= s.a.conn.recvCap
            && |Recv1(s.b.conn).2.recv| + Recv1(s.b.conn).1 <= s.b.conn.recvCap
  {
    SystemRunKeeps(states, steps, i);
    var s := states[i];
    assert s.b.got <= s.a.sent && s.a.got <= s.b.sent;
    hide Inv, Flow, SystemRun, IsReceivedEvent, Recv1;
    if IsReceivedEvent(s.b.conn) {
      ExposedIsNext(s.a.conn, s.a.sent, s.ab, s.b.conn, s.b.got);
    }
    if IsReceivedEvent(s.a.conn) {
      ExposedIsNext(s.b.conn, s.b.sent, s.ba, s.a.conn, s.a.got);
    }
    RoomToReceive(s.a.conn, s.a.sent, s.ab, s.b.conn, s.b.got);
    RoomToReceive(s.b.conn, s.b.sent, s.ba, s.a.conn, s.a.got);
  }

  lemma AtLeastFirst(rest: seq<seq<byte>>)
    requires 0 < |rest|
    ensures |Joined(rest)| >= |rest[0]|
  {
  }

  /** Nothing is lost: as long as a message sent by a healthy endpoint has not been consumed by
      its healthy, opened peer, some call moves things on. So when both are quiet, everything
      has been delivered. */
  lemma NothingIsStuck(snd: Conn, sent: seq<seq<byte>>, chan: seq<byte>, rcv: Conn, got: seq<seq<byte>>)
    requires Inv(snd) && Inv(rcv) && Flow(snd, sent, chan, rcv, got)
    requires Healthy(snd) && Healthy(rcv) && !Unopened(rcv) && got != sent
    ensures || Send1(snd).1 > 0
            || IsReceivedEvent(rcv)
            || (Recv1(rcv).1 > 0 && (chan != [] || MessageConsumed in rcv.flags))
  {
    hide Joined;
    if MessageReceived !in rcv.flags && !Unsent(snd) {
      var rest := sent[|got|..];
      assert rest[0] in sent;
      AtLeastFirst(rest);
      assert rcv.recv + chan + [] == rcv.recv + chan;
    }
  }

  lemma QuietMeansDelivered(states: seq<System>, steps: seq<(Who, Action)>, i: nat)
    requires SystemRun(states, steps) && i < |states|
    requires var s := states[i];
             && Healthy(s.a.conn) && Healthy(s.b.conn) && !Unopened(s.b.conn)
             && Inv(s.a.conn) && Inv(s.b.conn)
             && Send1(s.a.conn).1 == 0 && s.ab == [] && s.b.conn.flags !! {MessageReceived, MessageConsumed}
    ensures states[i].b.got == states[i].a.sent
  {
    SystemRunKeeps(states, steps, i);
    hide Flow, Inv, SystemRun, Send1, Recv1, Unopened, Healthy;
    var s := states[i];
    if s.b.got != s.a.sent {
      NothingIsStuck(s.a.conn, s.a.sent, s.ab, s.b.conn, s.b.got);
    }
  }

  // ---- what the peer reads ----

  /** End to end: when the next message was written by the encoder, the reader that the peer gets
      on everything received accepts it, and reads exactly it if and only if it has an entry and
      every entry fits the format. A message without entries is not read past its header: the
      reader then starts on whatever already arrived behind it. */
  lemma EncodedMessageArrives(snd: Conn, sent: seq<seq<byte>>, chan: seq<byte>, rcv: Conn, got: seq<seq<byte>>,
                              ver: Headers.Version, mask: byte, m: Tree.Message)
    requires Inv(rcv) && Flow(snd, sent, chan, rcv, got) && IsReceivedEvent(rcv)
    requires WholeMessage.MessageAccepted(ver, mask, m, U32_MAX) && forall e | e in m.entries ::
        WholeMessage.EntryShaped(e)
    requires |got| < |sent| ==> sent[|got|] == Tree.EncodeMessage(ver, mask, m)
    ensures MessageReceive(rcv) == Ok(rcv.recv)
    ensures RoundTrip.ReadsMessage(rcv.recv, |rcv.recv|, ver, RoundTrip.Visible(ver, mask, m), m.entries)
       <==> m.entries != [] && forall e | e in m.entries :: RoundTrip.CarriesEntry(ver, e)
    ensures m.entries == [] ==>
              && |Tree.EncodeMessage(ver, mask, m)| >= 10
              && BeginEntries(rcv.recv, |rcv.recv|, ver)
              == ReadsBack.EntriesBehind(rcv.recv, |rcv.recv|, ver, |Tree.EncodeMessage(ver, mask, m)|)
  {
    hide *;
    ExposedIsNext(snd, sent, chan, rcv, got);
    Exposes(rcv);
    AcceptedHeader(ver, mask, m);
    PrefixIsAt(rcv.recv, rcv.recvLen, Tree.EncodeMessage(ver, mask, m));
    RoundTrip.MessageHead(ver, mask, m, rcv.recv, |rcv.recv|);
    ReadsBack.MessageReadsBackIff(ver, mask, m, rcv.recv, |rcv.recv|);
    if m.entries == [] {
      ReadsBack.EmptyMessageReads(ver, mask, m, rcv.recv, |rcv.recv|);
    }
  }

  lemma AcceptedHeader(ver: Headers.Version, mask: byte, m: Tree.Message)
    requires WholeMessage.MessageAccepted(ver, mask, m, U32_MAX)
    ensures Tree.HeaderAccepted(ver, m.header, mask) && |m.entries| <= 0xFFFF
  {
    hide Tree.HeaderAccepted, WholeMessage.EntryInRange, Tree.EncodeMessage, MessageHeaders.HasMultiple;
  }

  /** What is exposed lies in the buffer, and the program gets a reader on everything received
      if the reader's own checks pass. */
  lemma Exposes(c: Conn)
    requires Inv(c) && IsReceivedEvent(c)
    ensures c.recvLen <= |c.recv|
    ensures CheckMessage(c.recv, |c.recv|) == Success ==> MessageReceive(c) == Ok(c.recv)
  {
    hide CheckMessage;
  }

  lemma PrefixIsAt(s: seq<byte>, n: nat, e: seq<byte>)
    requires n <= |s| && s[..n] == e
    ensures At(s, 0, e) && |e| <= |s|
  {
    assert s[0..|e|] == s[..n];
  }
}
