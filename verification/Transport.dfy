/** The connection as connection.c and tcp_transport.c keep it: fields and buffers updated in
    place. Every method is tied to the value function of the same name. */
module Transport {
  import opened Base
  import opened MessageHeaders
  import opened Cursor
  import opened Connection
  import Lifecycle

  /** A non-blocking stream socket: it moves as many bytes as it likes up to what was asked
      for, and may fail at any time. */
  class Socket {
    var incoming: seq<byte>
    var outgoing: seq<byte>

    constructor ()
      ensures incoming == [] && outgoing == []
    {
      incoming, outgoing := [], [];
    }

    method Recv(buffer: array<byte>, pos: nat, len: nat) returns (rv: Status, newPos: nat)
      requires pos + len <= buffer.Length
      modifies this`incoming, buffer
      ensures rv in {Success, ConnectionError}
      ensures pos <= newPos <= pos + len && newPos - pos <= |old(incoming)|
      ensures incoming == old(incoming)[newPos - pos..]
      ensures buffer[..] == Splice(old(buffer[..]), pos, old(incoming)[..newPos - pos])
    {
      var k: nat :| k <= len && k <= |incoming|;
      var bytes := incoming;
      forall i | 0 <= i < k {
        buffer[pos + i] := bytes[i];
      }
      incoming := incoming[k..];
      newPos := pos + k;
      if * { rv := Success; } else { rv := ConnectionError; }
    }

    method Send(buffer: array<byte>, pos: nat, len: nat) returns (rv: Status, newPos: nat)
      requires pos + len <= buffer.Length
      modifies this`outgoing
      ensures rv in {Success, ConnectionError}
      ensures pos <= newPos <= pos + len
      ensures outgoing == old(outgoing) + buffer[pos..newPos]
    {
      var k: nat :| k <= len;
      outgoing := outgoing + buffer[pos..pos + k];
      newPos := pos + k;
      if * { rv := Success; } else { rv := ConnectionError; }
    }
  }

  class TcpConnection {
    var flags: set<Flag>
    var transport: nat
    var isServer: bool
    const recvBuffer: array<byte>
    var recvPos: nat
    var recvLen: u32
    const sendBuffer: array<byte>
    var sendPos: nat
    var sendLen: u32

    /** Construction and init: idle, nothing received, nothing to send. */
    constructor (recvBuffer: array<byte>, sendBuffer: array<byte>)
      requires recvBuffer != sendBuffer && sendBuffer.Length <= U32_MAX
      ensures this.recvBuffer == recvBuffer && this.sendBuffer == sendBuffer
      ensures Valid() && Value() == Connection.Reset(Value())
    {
      this.recvBuffer, this.sendBuffer := recvBuffer, sendBuffer;
      flags, transport, isServer := {Idle}, 0, false;
      recvPos, recvLen, sendPos, sendLen := 0, 0, 0, 0;
    }

    predicate Valid()
      reads this
    {
      && recvPos <= recvBuffer.Length && sendPos <= sendLen <= sendBuffer.Length <= 0xFFFF_FFFF
      && recvBuffer != sendBuffer
      && (MessageConsumed in flags ==> recvLen <= recvPos)
    }

    function Value(): Conn
      requires recvPos <= recvBuffer.Length
      reads this, recvBuffer, sendBuffer
    {
      Conn(flags, transport, isServer, recvBuffer[..recvPos], recvLen, recvBuffer.Length, sendBuffer[..], sendPos,
          sendLen)
    }

    method Reset()
      requires Valid()
      modifies this
      ensures Valid() && Value() == Connection.Reset(old(Value()))
      ensures Lifecycle.Inv(old(Value())) ==> Lifecycle.Inv(Value())
    {
      transport, isServer, flags := 0, false, {Idle};
      recvPos, recvLen, sendPos, sendLen := 0, 0, 0, 0;
      ResetKept(old(Value()));
    }

    // ---- receiving ----

    /** Leftovers move to the front once the message before them is consumed. */
    method Recv1() returns (rv: Status, len: nat)
      requires Valid()
      modifies this, recvBuffer
      ensures Valid() && (rv, len, Value()) == Connection.Recv1(old(Value()))
    {
      if Error in flags {
        return ConnectionError, 0;
      }
      if MessageConsumed in flags {
        var n := recvPos - recvLen;
        ghost var rest := recvBuffer[..recvPos][recvLen..];
        if recvPos > recvLen {
          Memmove(recvLen, n);
        }
        assert recvBuffer[..n] == rest;
        recvPos := n;
        recvLen := 0;
        flags := flags - {MessageConsumed, MessageReceived};
        flags := flags + {ReceiveRequested};
      }
      if ReceiveRequested in flags {
        len := if recvLen == 0 then 64 else recvBuffer.Length - recvPos;
      } else {
        len := 0;
      }
      return Success, len;
    }

    method Memmove(from: nat, n: nat)
      requires from + n <= recvBuffer.Length && recvBuffer != sendBuffer
      modifies recvBuffer
      ensures recvBuffer[..n] == old(recvBuffer[from..from + n])
    {
      forall i | 0 <= i < n {
        recvBuffer[i] := recvBuffer[from + i];
      }
    }

    method VerifyPreamble() returns (rv: Status)
      requires Valid() && MessageConsumed !in flags
      modifies this`flags, this`recvLen
      ensures Valid() && (rv, Value()) == Connection.VerifyPreamble(old(Value()))
    {
      if recvPos >= 12 && recvLen == 0 {
        assert recvBuffer[..recvPos][..4] == recvBuffer[..4] && recvBuffer[..recvPos][4..8] == recvBuffer[4..8]
            && recvBuffer[..recvPos][8..10] == recvBuffer[8..10];
        if recvBuffer[..4] != RRAC {
          flags := flags + {Error};
          flags := flags - {ReceiveRequested};
          return ConnectionError;
        }
        recvLen := GetLE32(recvBuffer[4..8]);
        var version := GetLE16(recvBuffer[8..10]);
        if version != 2 && version != 4 {
          flags := flags + {Error};
          flags := flags - {ReceiveRequested};
          return ConnectionError;
        }
      }
      return Success;
    }

    method Recv2(rv: Status) returns (r: Status)
      requires Valid() && MessageConsumed !in flags
      modifies this`flags, this`recvLen
      ensures Valid() && (r, Value()) == Connection.Recv2(old(Value()), rv)
    {
      hide Connection.VerifyPreamble;
      if rv != Success {
        flags := flags + {Error};
        flags := flags - {ReceiveRequested};
        return rv;
      }
      r := VerifyPreamble();
      if r != Success {
        flags := flags + {Error};
        flags := flags - {ReceiveRequested};
        return ConnectionError;
      }
      if recvLen > 0 && recvPos >= recvLen {
        flags := flags - {ReceiveRequested};
        flags := flags + {MessageReceived};
      }
      return Success;
    }

    /** Up to len bytes from the socket go behind what is received. */
    method ReceiveMore(sock: Socket, len: nat) returns (op: Status, ghost arrived: seq<byte>)
      requires Valid() && recvPos + len <= recvBuffer.Length
      modifies this`recvPos, recvBuffer, sock`incoming
      ensures Valid() && recvPos == old(recvPos) + |arrived| && |arrived| <= len
          && old(sock.incoming) == arrived + sock.incoming
      ensures Value() == old(Value()).(recv := old(Value()).recv + arrived)
    {
      ghost var bytes := sock.incoming;
      var pos;
      op, pos := sock.Recv(recvBuffer, recvPos, len);
      arrived := bytes[..pos - recvPos];
      assert bytes == arrived + sock.incoming;
      assert recvBuffer[..pos] == recvBuffer[..recvPos] + recvBuffer[recvPos..pos];
      recvPos := pos;
    }

    /** One receive pass: the bytes that arrived are those the socket gave up. */
    method CommunicateRecv(sock: Socket) returns (rv: Status, ghost arrived: seq<byte>, ghost opRv: Status)
      requires Valid() && |Connection.Recv1(Value()).2.recv| + Connection.Recv1(Value()).1 <= recvBuffer.Length
      modifies this, recvBuffer, sock`incoming
      ensures Valid()
      ensures old(sock.incoming) == arrived + sock.incoming && |arrived| <= Connection.Recv1(old(Value())).1
      ensures (rv, Value()) == Connection.Receive(old(Value()), arrived, opRv)
      ensures Lifecycle.Inv(old(Value())) ==> Lifecycle.Inv(Value())
    {
      hide Connection.Recv2, Connection.Recv1, Lifecycle.Inv;
      ghost var c := Value();
      arrived, opRv := [], Success;
      Recv1ClearsConsumed(c);
      var len;
      rv, len := Recv1();
      if rv != Success || len == 0 {
        ReceiveKept(c, arrived, opRv);
        return;
      }
      rv, arrived := ReceiveMore(sock, len);
      opRv := rv;
      rv := Recv2(rv);
      ReceiveKept(c, arrived, opRv);
    }

    /** The reader gets all received bytes; the message is at their front. */
    method MessageReceive() returns (message: Result<seq<byte>>)
      requires Valid()
      ensures message == Connection.MessageReceive(Value())
    {
      if MessageReceived !in flags || MessageConsumed in flags {
        return Err(Retry);
      }
      if CheckMessage(recvBuffer[..recvPos], recvPos) != Success {
        return Err(InternalError);
      }
      return Ok(recvBuffer[..recvPos]);
    }

    method MessageReceiveConsume() returns (rv: Status)
      requires Valid() && (MessageReceived in flags ==> recvLen <= recvPos)
      modifies this`flags
      ensures Valid() && rv == if MessageReceived in old(flags) then Success else InvalidOperation
      ensures Value() == if rv == Success then old(Value()).(flags := old(flags) + {MessageConsumed}) else old(Value())
      ensures Lifecycle.Inv(old(Value())) ==> Lifecycle.Inv(Value())
    {
      if MessageReceived !in flags {
        return InvalidOperation;
      }
      flags := flags + {MessageConsumed};
      ConsumeKept(old(Value()));
      return Success;
    }

    // ---- sending ----

    method Send1() returns (rv: Status, len: nat)
      requires Valid()
      modifies this`flags, this`sendPos, this`sendLen
      ensures Valid() && (rv, len, Value()) == Connection.Send1(old(Value()))
    {
      if Error in flags {
        return ConnectionError, 0;
      }
      if MessageSentConsumed in flags {
        flags := flags - {MessageSentConsumed, MessageSent};
        sendPos, sendLen := 0, 0;
        return Success, 0;
      }
      if SendRequested in flags {
        flags := flags - {SendRequested};
        len := sendLen;
      } else if Sending in flags {
        len := sendLen - sendPos;
      } else {
        len := 0;
      }
      return Success, len;
    }

    method Send2(rv: Status) returns (r: Status)
      requires Valid()
      modifies this`flags
      ensures Valid() && (r, Value()) == Connection.Send2(old(Value()), rv)
      ensures rv != Success ==> r == rv && flags == old(flags) + {Error}
      ensures rv == Success ==> r == Success && (Error in flags <==> Error in old(flags))
      ensures rv == Success && sendPos < sendLen ==>
                Sending in flags && (MessageSent in flags <==> MessageSent in old(flags))
      ensures rv == Success && sendPos >= sendLen ==> MessageSent in flags && Sending !in flags
    {
      if rv != Success {
        flags := flags + {Error};
        return rv;
      }
      if sendLen > 0 && sendPos < sendLen {
        flags := flags + {Sending};
      } else {
        flags := flags - {Sending};
        flags := flags + {MessageSent};
      }
      return Success;
    }

    /** One send pass: taken bytes from the position on go to the wire. */
    method CommunicateSend(sock: Socket) returns (rv: Status, ghost taken: nat, ghost opRv: Status)
      requires Valid() && sendPos + Connection.Send1(Value()).1 <= sendLen
      modifies this`flags, this`sendPos, this`sendLen, sock`outgoing
      ensures Valid() && taken <= Connection.Send1(old(Value())).1
      ensures old(sendPos) + taken <= sendBuffer.Length
          && sock.outgoing == old(sock.outgoing) + sendBuffer[old(sendPos)..old(sendPos) + taken]
      ensures (rv, Value()) == Connection.Send(old(Value()), taken, opRv)
      ensures Lifecycle.Inv(old(Value())) ==> Lifecycle.Inv(Value())
    {
      hide Connection.Send2, Lifecycle.Inv;
      ghost var c := Value();
      taken, opRv := 0, Success;
      assert sock.outgoing + sendBuffer[sendPos..sendPos] == sock.outgoing;
      var len;
      rv, len := Send1();
      if rv != Success || len == 0 {
        SendKept(c, taken, opRv);
        return;
      }
      var op, pos := sock.Send(sendBuffer, sendPos, len);
      taken, opRv := pos - sendPos, op;
      sendPos := pos;
      rv := Send2(op);
      SendKept(c, taken, opRv);
    }

    method BeginSend() returns (rv: Status)
      requires Valid()
      ensures rv == Connection.BeginSend(Value())
      ensures var open := Connected in flags && flags !! {Error, Closed, CloseRequested, Idle};
              var free := flags !! {SendRequested, Sending, MessageSent, MessageSentConsumed, BlockSend};
              rv == if !open then InvalidOperation else if !free then Retry else Success
    {
      if Error in flags || Closed in flags || CloseRequested in flags || Idle in flags || Connected !in flags {
        return InvalidOperation;
      }
      if SendRequested in flags || Sending in flags || MessageSent in flags || MessageSentConsumed in flags
          || BlockSend in flags {
        return Retry;
      }
      return Success;
    }

    method EndSend(len: nat)
      requires Valid() && sendPos <= len <= sendBuffer.Length
      modifies this`flags, this`sendLen
      ensures Valid() && Value() == Connection.EndSend(old(Value()), len)
      ensures Lifecycle.Inv(old(Value())) && Connection.BeginSend(old(Value())) == Success && len > 0
          ==> Lifecycle.Inv(Value())
    {
      U32Exact(len);
      sendLen := U32OfSize(len);
      flags := flags + {SendRequested};
      EndSendKept(old(Value()), len);
    }

    // ---- control ----

    method ProcessControl(transportType: nat) returns (rv: Status, close: bool)
      requires Valid()
      modifies this
      ensures Valid() && (rv, close, Value()) == Connection.ProcessControl(old(Value()), transportType)
    {
      if transport != transportType {
        return Consumed, false;
      }
      if ClosedConsumed in flags {
        flags := {Idle};
        Reset();
      }
      if Closed in flags || Idle in flags {
        return Consumed, false;
      }
      return Success, CloseRequested in flags || Closing in flags;
    }

    method HandshakeServer(sock: Socket) returns (rv: Status, ghost arrived: seq<byte>, ghost opRv: Status)
      requires Valid() && (Connecting in flags && recvPos < 4 ==> recvPos + 4 <= recvBuffer.Length)
      modifies this, recvBuffer, sock`incoming
      ensures Valid() && |arrived| <= 4 && old(sock.incoming) == arrived + sock.incoming
      ensures arrived != [] ==> Connecting in old(flags) && old(recvPos) < 4
      ensures (rv, Value()) == Connection.HandshakeServer(old(Value()), arrived, opRv)
    {
      arrived, opRv := [], Success;
      if Connecting !in flags {
        return Success, arrived, opRv;
      }
      if recvPos < 4 {
        rv, arrived := ReceiveMore(sock, 4);
        opRv := rv;
        if rv != Success {
          flags := flags + {Error};
          return;
        }
        if recvPos < 4 {
          return Consumed, arrived, opRv;
        }
      }
      assert recvBuffer[..recvPos][..4] == recvBuffer[..4];
      if recvBuffer[..4] == RRAC {
        flags := flags + {Connected, ReceiveRequested};
        flags := flags - {Connecting};
        return Success, arrived, opRv;
      }
      return ConnectionError, arrived, opRv;
    }

    /** The socket's own connect is complete, still under way, or failed. */
    method HandshakeClient(complete: Status) returns (rv: Status)
      requires Valid()
      modifies this`flags
      ensures Valid() && (rv, Value()) == Connection.HandshakeClient(old(Value()), complete)
    {
      if ClientSocketConnected in flags {
        return Success;
      }
      if complete == Success {
        flags := flags + {ClientSocketConnected, ReceiveRequested};
      }
      return complete;
    }

    /** communicate_process_control of the TCP transport. */
    method CommunicateControl(sock: Socket, complete: Status)
            returns (rv: Status, ghost arrived: seq<byte>, ghost opRv: Status)
      requires Valid() && (isServer && Connecting in flags && recvPos < 4 ==> recvPos + 4 <= recvBuffer.Length)
      modifies this, recvBuffer, sock`incoming
      ensures Valid() && |arrived| <= 4 && old(sock.incoming) == arrived + sock.incoming
      ensures arrived != [] ==> HandshakeReads(old(Value()))
      ensures (rv, Value()) == Connection.Control(old(Value()), arrived, opRv)
      ensures Lifecycle.Inv(old(Value())) ==> Lifecycle.Inv(Value())
    {
      hide Connection.HandshakeServer, Connection.HandshakeClient, Lifecycle.Inv;
      ghost var c := Value();
      arrived, opRv := [], complete;
      var close;
      rv, close := ProcessControl(TCP_TRANSPORT);
      if rv == Success {
        if close {
          flags := {Closed};
        } else if !isServer {
          rv := HandshakeClient(complete);
        } else if Connecting in flags {
          rv, arrived, opRv := HandshakeServer(sock);
        } else {
          NotConnecting(Value(), arrived, opRv);
        }
      }
      ControlKept(c, arrived, opRv);
    }

    method Close()
      requires Valid()
      modifies this`flags
      ensures Valid() && Value() == Connection.Close(old(Value()))
      ensures Lifecycle.Inv(old(Value())) ==> Lifecycle.Inv(Value())
    {
      if Idle !in flags {
        flags := flags + {CloseRequested};
      }
      FlagsKept(old(Value()), Lifecycle.DoClose);
    }

    method Accept2(transportType: nat)
      requires Valid()
      modifies this
      ensures Valid() && Value() == Connection.Accept2(old(Value()), transportType)
      ensures Lifecycle.Inv(old(Value())) && Idle in old(flags) ==> Lifecycle.Inv(Value())
    {
      transport, isServer, flags := transportType, true, {Connecting};
      FlagsKept(old(Value()), Lifecycle.DoAccept(transportType));
    }

    method Connect2(transportType: nat)
      requires Valid()
      modifies this
      ensures Valid() && Value() == Connection.Connect2(old(Value()), transportType)
      ensures Lifecycle.Inv(old(Value())) && Idle in old(flags) ==> Lifecycle.Inv(Value())
    {
      transport, isServer, flags := transportType, false, {Connecting};
      FlagsKept(old(Value()), Lifecycle.DoConnect(transportType));
    }
  }

  lemma NotConnecting(c: Conn, arrived: seq<byte>, rv: Status)
    requires Connecting !in c.flags
    ensures Connection.HandshakeServer(c, arrived, rv) == (Success, c)
  {
  }

  lemma Recv1ClearsConsumed(c: Conn)
    requires |c.recv| <= c.recvCap && (MessageConsumed in c.flags ==> c.recvLen <= |c.recv|)
    ensures Connection.Recv1(c).0 == Success ==> MessageConsumed !in Connection.Recv1(c).2.flags
  {
  }

  // ---- the discipline of Lifecycle is kept in place ----

  lemma ReceiveKept(c: Conn, arrived: seq<byte>, rv: Status)
    requires |c.recv| <= c.recvCap && (MessageConsumed in c.flags ==> c.recvLen <= |c.recv|)
    requires |arrived| <= Connection.Recv1(c).1 && |Connection.Recv1(c).2.recv| + |arrived| <= c.recvCap
    ensures Lifecycle.Inv(c) ==> Lifecycle.Inv(Connection.Receive(c, arrived, rv).1)
  {
    hide Lifecycle.Inv, Connection.Recv1, Connection.Receive;
    if Lifecycle.Inv(c) {
      Lifecycle.ReceiveKeeps(c, arrived, rv);
    }
  }

  lemma SendKept(c: Conn, taken: nat, rv: Status)
    requires c.sendPos <= c.sendLen && taken <= Connection.Send1(c).1
    ensures Lifecycle.Inv(c) ==> Lifecycle.Inv(Connection.Send(c, taken, rv).1)
  {
    hide Lifecycle.Inv, Connection.Send1, Connection.Send;
    if Lifecycle.Inv(c) {
      Lifecycle.SendKeeps(c, taken, rv);
    }
  }

  lemma ControlKept(c: Conn, arrived: seq<byte>, rv: Status)
    requires |arrived| <= 4 && |c.recv| + |arrived| <= c.recvCap
    ensures Lifecycle.Inv(c) ==> Lifecycle.Inv(Connection.Control(c, arrived, rv).1)
  {
    hide Lifecycle.Inv, Connection.Control;
    if Lifecycle.Inv(c) {
      Lifecycle.ControlKeeps(c, arrived, rv);
    }
  }

  lemma FlagsKept(c: Conn, a: Lifecycle.Action)
    requires a.DoClose? || a.DoAccept? || a.DoConnect?
    ensures Lifecycle.Inv(c) && Lifecycle.Enabled(c, a) ==> Lifecycle.Inv(Lifecycle.Step(c, a))
  {
    if Lifecycle.Inv(c) && Lifecycle.Enabled(c, a) {
      hide Lifecycle.Inv, Lifecycle.Enabled, Lifecycle.Step;
      Lifecycle.StepKeeps(c, a);
    }
  }

  lemma ConsumeKept(c: Conn)
    requires MessageReceived in c.flags
    ensures Lifecycle.Inv(c) ==> Lifecycle.Inv(c.(flags := c.flags + {MessageConsumed}))
  {
    assert MessageConsumed in c.flags ==> c.flags + {MessageConsumed} == c.flags;
  }

  lemma ResetKept(c: Conn)
    ensures Lifecycle.Inv(c) ==> Lifecycle.Inv(Connection.Reset(c))
  {
  }

  lemma EndSendKept(c: Conn, len: nat)
    requires len <= |c.out| <= U32_MAX
    ensures Lifecycle.Inv(c) && Connection.BeginSend(c) == Success && len > 0
        ==> Lifecycle.Inv(Connection.EndSend(c, len))
  {
    U32Exact(len);
  }
}
