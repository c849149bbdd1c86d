/** The send/receive machine of connection.c over raw TCP (tcp_transport.c): a flag word, two
    buffers and their positions, changed step by step. The value functions say what each
    entry point does; the class below does it in place. */
module Connection {
  import opened Base
  import opened MessageHeaders
  import opened Cursor

  /** The status flags of connection.h. */
  datatype Flag =
    | Idle | Connected | Connecting | Closing | Closed | Error
    | ReceiveRequested | Receiving | SendRequested | Sending
    | MessageReceived | MessageConsumed | BlockSend | MessageSent
    | Established | ClientEstablished | CloseRequested | ClosedConsumed
    | MessageSentConsumed | ConnectedConsumed | SendMessage4 | CloseNotified
    | ClientSocketConnected | ClientSocketConnectedConsumed

  const TCP_TRANSPORT: nat := 1

  /** recv holds the received bytes (its length is recv_buffer_pos), out the whole send buffer. */
  datatype Conn = Conn(
    flags: set<Flag>, transport: nat, isServer: bool,
    recv: seq<byte>, recvLen: u32, recvCap: nat,
    out: seq<byte>, sendPos: nat, sendLen: u32)

  // ---- receiving ----

  /** A consumed message makes way for the bytes behind it. */
  function Compacted(c: Conn): Conn
    requires MessageConsumed in c.flags ==> c.recvLen <= |c.recv|
  {
    if MessageConsumed in c.flags then
      c.(recv := c.recv[c.recvLen..], recvLen := 0,
          flags := c.flags - {MessageConsumed, MessageReceived} + {ReceiveRequested})
    else c
  }

  /** How much the next receive asks for: 64 bytes until the length is known, then all there is room for. */
  function ReceiveRequest(c: Conn): nat
    requires |c.recv| <= c.recvCap
  {
    if ReceiveRequested !in c.flags then 0 else if c.recvLen == 0 then 64 else c.recvCap - |c.recv|
  }

  function Recv1(c: Conn): (Status, nat, Conn)
    requires |c.recv| <= c.recvCap && (MessageConsumed in c.flags ==> c.recvLen <= |c.recv|)
  {
    if Error in c.flags then (ConnectionError, 0, c)
    else (Success, ReceiveRequest(Compacted(c)), Compacted(c))
  }

  function Fail(c: Conn): Conn {
    c.(flags := c.flags + {Error} - {ReceiveRequested})
  }

  function VerifyPreamble(c: Conn): (Status, Conn) {
    if |c.recv| < 12 || c.recvLen != 0 then (Success, c)
    else if c.recv[..4] != RRAC then (ConnectionError, Fail(c))
    else
      var d := c.(recvLen := GetLE32(c.recv[4..8]));
      if GetLE16(c.recv[8..10]) !in {2, 4} then (ConnectionError, Fail(d)) else (Success, d)
  }

  function Recv2(c: Conn, rv: Status): (Status, Conn) {
    if rv != Success then (rv, Fail(c))
    else
      var (ok, d) := VerifyPreamble(c);
      if ok != Success then (ConnectionError, Fail(d))
      else if d.recvLen > 0 && |d.recv| >= d.recvLen
          then (Success, d.(flags := d.flags - {ReceiveRequested} + {MessageReceived}))
      else (Success, d)
  }

  /** communicate_recv, where the socket delivers the given bytes and status. */
  function Receive(c: Conn, arrived: seq<byte>, rv: Status): (Status, Conn)
    requires |c.recv| <= c.recvCap && (MessageConsumed in c.flags ==> c.recvLen <= |c.recv|)
  {
    var (rv1, n, d) := Recv1(c);
    if rv1 != Success || n == 0 then (rv1, d) else Recv2(d.(recv := d.recv + arrived), rv)
  }

  /** The bytes that the message reader is given: everything received, the message first. */
  function MessageReceive(c: Conn): Result<seq<byte>> {
    if MessageReceived !in c.flags || MessageConsumed in c.flags then Err(Retry)
    else if CheckMessage(c.recv, |c.recv|) != Success then Err(InternalError)
    else Ok(c.recv)
  }

  // ---- sending ----

  function Send1(c: Conn): (Status, nat, Conn)
    requires c.sendPos <= c.sendLen
  {
    if Error in c.flags then (ConnectionError, 0, c)
    else if MessageSentConsumed in c.flags then
      (Success, 0, c.(flags := c.flags - {MessageSentConsumed, MessageSent}, sendPos := 0, sendLen := 0))
    else if SendRequested in c.flags then (Success, c.sendLen, c.(flags := c.flags - {SendRequested}))
    else if Sending in c.flags then (Success, c.sendLen - c.sendPos, c)
    else (Success, 0, c)
  }

  function Send2(c: Conn, rv: Status): (Status, Conn) {
    if rv != Success then (rv, c.(flags := c.flags + {Error}))
    else if c.sendLen > 0 && c.sendPos < c.sendLen then (Success, c.(flags := c.flags + {Sending}))
    else (Success, c.(flags := c.flags - {Sending} + {MessageSent}))
  }

  /** communicate_send, where the socket takes k bytes and returns the given status. */
  function Send(c: Conn, k: nat, rv: Status): (Status, Conn)
    requires c.sendPos <= c.sendLen
  {
    var (rv1, n, d) := Send1(c);
    if rv1 != Success || n == 0 then (rv1, d) else Send2(d.(sendPos := d.sendPos + k), rv)
  }

  function BeginSend(c: Conn): Status {
    if Error in c.flags || Closed in c.flags || CloseRequested in c.flags || Idle in c.flags || Connected !in c.flags
        then InvalidOperation
    else if SendRequested in c.flags || Sending in c.flags || MessageSent in c.flags || MessageSentConsumed in c.flags
        || BlockSend in c.flags then Retry
    else Success
  }

  function EndSend(c: Conn, len: nat): Conn {
    c.(sendLen := U32OfSize(len), flags := c.flags + {SendRequested})
  }

  /** begin_send_message, the message written to the front of the buffer, end_send_message. */
  function Post(c: Conn, m: seq<byte>): (Status, Conn)
    requires |m| <= |c.out|
  {
    if BeginSend(c) != Success then (BeginSend(c), c)
    else (Success, EndSend(c.(out := Splice(c.out, 0, m)), |m|))
  }

  // ---- control ----

  function Reset(c: Conn): Conn {
    c.(transport := 0, isServer := false, flags := {Idle}, recv := [], recvLen := 0, sendPos := 0, sendLen := 0)
  }

  /** communicate_process_control up to the transport's part: (status, close the socket?, state). */
  function ProcessControl(c: Conn, transport: nat): (Status, bool, Conn) {
    if c.transport != transport then (Consumed, false, c)
    else
      var d := if ClosedConsumed in c.flags then Reset(c) else c;
      if Closed in d.flags || Idle in d.flags then (Consumed, false, d)
      else (Success, CloseRequested in d.flags || Closing in d.flags, d)
  }

  function AfterClose(c: Conn): Conn {
    c.(flags := {Closed})
  }

  /** The handshake of a raw TCP server: wait for the four tag bytes; anything else is refused
      (the HTTP upgrade is not part of this model). */
  function HandshakeServer(c: Conn, arrived: seq<byte>, rv: Status): (Status, Conn) {
    if Connecting !in c.flags then (Success, c)
    else
      var d := if |c.recv| < 4 then c.(recv := c.recv + arrived) else c;
      if |c.recv| < 4 && rv != Success then (rv, d.(flags := d.flags + {Error}))
      else if |d.recv| < 4 then (Consumed, d)
      else if d.recv[..4] == RRAC then (Success, d.(flags := d.flags + {Connected, ReceiveRequested} - {Connecting}))
      else (ConnectionError, d)
  }

  /** The handshake of a raw TCP client: only the socket itself has to be connected. */
  function HandshakeClient(c: Conn, rv: Status): (Status, Conn) {
    if ClientSocketConnected in c.flags then (Success, c)
    else if rv == Success then (rv, c.(flags := c.flags + {ClientSocketConnected, ReceiveRequested}))
    else (rv, c)
  }

  /** communicate_process_control for raw TCP; a connection that is closed keeps its buffers. */
  function Control(c: Conn, arrived: seq<byte>, rv: Status): (Status, Conn) {
    var (rv1, close, d) := ProcessControl(c, TCP_TRANSPORT);
    if rv1 != Success then (rv1, d)
    else if close then (Success, AfterClose(d))
    else if d.isServer then HandshakeServer(d, arrived, rv)
    else HandshakeClient(d, rv)
  }

  /** The server's handshake is the only control call that reads. */
  predicate HandshakeReads(c: Conn) {
    && c.transport == TCP_TRANSPORT && c.isServer && Connecting in c.flags && |c.recv| < 4
    && Closed !in c.flags && Idle !in c.flags && CloseRequested !in c.flags && Closing !in c.flags
  }

  function Close(c: Conn): Conn {
    if Idle in c.flags then c else c.(flags := c.flags + {CloseRequested})
  }

  function Accept2(c: Conn, transport: nat): Conn {
    c.(transport := transport, isServer := true, flags := {Connecting})
  }

  function Connect2(c: Conn, transport: nat): Conn {
    c.(transport := transport, isServer := false, flags := {Connecting})
  }

  // ---- events (connection.h) ----

  predicate IsClosedEvent(c: Conn) {
    Closed in c.flags && ClosedConsumed !in c.flags
  }

  predicate IsError(c: Conn) {
    Error in c.flags && Closed !in c.flags && CloseRequested !in c.flags
  }

  predicate IsConnectedEvent(c: Conn) {
    Connected in c.flags && ConnectedConsumed !in c.flags
  }

  predicate IsReceivedEvent(c: Conn) {
    MessageReceived in c.flags && MessageConsumed !in c.flags
  }

  predicate IsSentEvent(c: Conn) {
    MessageSent in c.flags && MessageSentConsumed !in c.flags
  }

  predicate IsClientSocketEvent(c: Conn) {
    ClientSocketConnected in c.flags && ClientSocketConnectedConsumed !in c.flags
  }
}
