/** The frame path in place: positions, header buffers and mask in the transport storage, the
    payload masked where it lies in the buffers. */
module WebSocketTransport {
  import opened Base
  import opened WebSocket
  import opened Transport

  /** Exclusive-or a stretch of a buffer with the mask, the mask index starting at from. */
  method ApplyMask(buffer: array<byte>, pos: nat, n: nat, mask: key, from: nat)
    requires pos + n <= buffer.Length
    modifies buffer
    ensures buffer[..] == Splice(old(buffer[..]), pos, Masked(old(buffer[pos..pos + n]), mask, from))
  {
    hide Xor;
    for i := 0 to n
      invariant forall j | 0 <= j < buffer.Length ::
                  buffer[j] == if pos <= j < pos + i then Xor(old(buffer[j]), mask[(from + (j - pos)) % 4])
                      else old(buffer[j])
    {
      buffer[pos + i] := Xor(buffer[pos + i], mask[(from + i) % 4]);
    }
  }

  class WebSocketConnection {
    const isServer: bool
    const sendBuffer: array<byte>
    var sendPos: nat
    const recvBuffer: array<byte>
    var recvPos: nat
    const sendHeader: array<byte>
    var sendHeaderLen: nat
    var sendHeaderPos: nat
    var sendFrameLen: nat
    var sendFramePos: nat
    var sendFrameEnd: nat
    var sendMasking: bool
    const recvHeader: array<byte>
    var recvHeaderPos: nat
    var recvFramePos: nat
    var recvFrameLen: nat
    var recvMask: key
    var recvInFrame: bool

    constructor (isServer: bool, sendBuffer: array<byte>, recvBuffer: array<byte>)
      requires sendBuffer != recvBuffer
      ensures Valid() && this.isServer == isServer && this.sendBuffer == sendBuffer && this.recvBuffer == recvBuffer
      ensures sendPos == 0 && sendFrameLen == 0 && Between(ReceiverValue(), [], NO_KEY)
    {
      this.isServer, this.sendBuffer, this.recvBuffer := isServer, sendBuffer, recvBuffer;
      sendHeader := new byte[8];
      recvHeader := new byte[14];
      sendPos, recvPos, sendHeaderLen, sendHeaderPos, recvHeaderPos := 0, 0, 0, 0, 0;
      sendFrameLen, sendFramePos, sendFrameEnd, sendMasking := 0, 0, 0, false;
      recvFramePos, recvFrameLen, recvMask, recvInFrame := 0, 0, NO_KEY, false;
      new;
      assert recvBuffer[..0] == [] && recvHeader[..0] == [];
    }

    ghost predicate Valid()
      reads this
    {
      && sendHeader.Length == 8 && recvHeader.Length == 14
      && sendHeader != recvHeader && sendHeader != sendBuffer && sendHeader != recvBuffer
      && recvHeader != sendBuffer && recvHeader != recvBuffer && sendBuffer != recvBuffer
      && sendHeaderPos <= sendHeaderLen <= 8 && recvHeaderPos <= 14 && recvPos <= recvBuffer.Length
      && (sendFrameLen > 0 ==> sendFramePos <= sendFrameEnd <= sendBuffer.Length)
      && (sendFrameLen == 0 ==> sendHeaderLen == 0)
    }

    /** The header bytes read so far do not run past the header. */
    predicate HeaderBounded()
      requires recvHeader.Length == 14
      reads `recvInFrame, `recvHeaderPos, recvHeader
    {
      !recvInFrame && recvHeaderPos >= 2 ==> recvHeaderPos <= HeaderSize(recvHeader[1])
    }

    ghost function SenderValue(): Sender
      requires Valid()
      reads this, sendBuffer, sendHeader
    {
      Sender(sendBuffer[..], sendPos, sendFrameLen, sendHeader[..sendHeaderLen], sendHeaderPos, sendFramePos,
          sendFrameEnd, sendMasking)
    }

    ghost function ReceiverValue(): Receiver
      requires recvHeader.Length == 14 && recvHeaderPos <= 14 && recvPos <= recvBuffer.Length
      reads `recvPos, `recvFramePos, `recvFrameLen, `recvHeaderPos, `recvMask, `recvInFrame, recvBuffer, recvHeader
    {
      Receiver(recvBuffer[..recvPos], recvFramePos, recvFrameLen, recvHeader[..recvHeaderPos], recvMask, recvInFrame)
    }

    method PrepareHeader(len: nat, random: key)
      requires sendHeader.Length == 8 && len > 0
      modifies this`sendHeaderLen, this`sendMasking, sendHeader
      ensures sendHeaderLen <= 8 && sendHeader[..sendHeaderLen] == PreparedHeader(len, isServer, random)
      ensures sendMasking == (old(sendMasking) || !isServer)
    {
      hide BE16;
      sendHeader[0] := 0x82;
      sendHeaderLen := 2;
      if len > 125 {
        var be := BE16OfSize(len);
        sendHeaderLen := 4;
        sendHeader[2], sendHeader[3] := be[0], be[1];
        sendHeader[1] := LengthByte(126, !isServer);
        assert be == [be[0], be[1]];
      } else {
        sendHeader[1] := LengthByte(len, !isServer);
      }
      assert sendHeader[..sendHeaderLen] == [0x82, LengthByte(if len > 125 then 126 else len, !isServer)]
          + (if len > 125 then BE16OfSize(len) else []);
      if !isServer {
        AppendKey(random);
        sendMasking := true;
      }
    }

    method AppendKey(random: key)
      requires sendHeaderLen + 4 <= sendHeader.Length
      modifies `sendHeaderLen, sendHeader
      ensures sendHeaderLen == old(sendHeaderLen) + 4
      ensures sendHeader[..sendHeaderLen] == old(sendHeader[..sendHeaderLen]) + random
    {
      forall i | 0 <= i < 4 {
        sendHeader[sendHeaderLen + i] := random[i];
      }
      sendHeaderLen := sendHeaderLen + 4;
    }

    /** Mask the payload where it lies, if the frame is to be masked. */
    method MaskPayload(n: nat, random: key)
      requires sendPos + n <= sendBuffer.Length
      modifies sendBuffer
      ensures sendBuffer[..] == if sendMasking
          then Splice(old(sendBuffer[..]), sendPos, Masked(old(sendBuffer[..])[sendPos..sendPos + n], random, 0))
                                else old(sendBuffer[..])
    {
      hide Masked, Splice;
      if sendMasking {
        assert sendBuffer[..][sendPos..sendPos + n] == sendBuffer[sendPos..sendPos + n];
        ApplyMask(sendBuffer, sendPos, n, random, 0);
      }
    }

    /** Prepare a new frame: header, bounds, and the payload masked in place. */
    method BeginFrame(len: nat, random: key)
      requires Valid() && sendPos + len <= sendBuffer.Length && len > 0 && sendFrameLen == 0
      modifies `sendHeaderLen, `sendMasking, `sendFrameLen, `sendFrameEnd, `sendFramePos, sendHeader, sendBuffer
      ensures Valid() && sendFrameLen > 0
          && SenderValue() == WebSocket.BeginFrame(old(SenderValue()), len, isServer, random)
      ensures ReceiverValue() == old(ReceiverValue())
    {
      hide Masked, PreparedHeader, Splice, HeaderSize, ReceiverValue;
      var n := if len >= U16_MAX then U16_MAX else len;
      PrepareHeader(len, random);
      sendFrameLen := n;
      sendFrameEnd := n + sendPos;
      sendFramePos := sendPos;
      MaskPayload(n, random);
      PreparedLength(len, isServer, random);
      assert sendHeader[..sendHeaderLen] == PreparedHeader(len, isServer, random);
    }

    method SendHeader(sock: Socket) returns (rv: Status, on: bool, ghost moved: nat, ghost op: Status,
            ghost wire: seq<byte>)
      requires Valid()
      modifies `sendHeaderPos, sock`outgoing
      ensures Valid() && moved <= HeaderRoom(old(SenderValue()))
      ensures (rv, on, SenderValue(), wire) == HeaderStep(old(SenderValue()), moved, op)
      ensures sock.outgoing == old(sock.outgoing) + wire
      ensures sendFrameLen == old(sendFrameLen)
    {
      moved, op, wire := 0, Success, [];
      assert sock.outgoing + [] == sock.outgoing;
      if sendHeaderLen > 0 && sendHeaderPos < sendHeaderLen {
        var status, pos := sock.Send(sendHeader, sendHeaderPos, sendHeaderLen - sendHeaderPos);
        SliceOfPrefix(sendHeader[..], sendHeaderLen, sendHeaderPos, pos);
        moved, op, wire := pos - sendHeaderPos, status, sendHeader[sendHeaderPos..pos];
        sendHeaderPos := pos;
        if status != Success {
          return status, false, moved, op, wire;
        }
        if sendHeaderPos < sendHeaderLen {
          return Success, false, moved, op, wire;
        }
      }
      return Success, true, moved, op, wire;
    }

    /** The whole frame is on its way: send_buffer_pos moves behind it, and the next one may begin. */
    method FinishFrame()
      requires Valid() && sendFrameLen > 0
      modifies `sendPos, `sendFrameLen, `sendHeaderLen, `sendHeaderPos, `sendMasking
      ensures Valid() && SenderValue() == EndFrame(old(SenderValue()))
    {
      hide HeaderSize;
      sendPos := sendFrameEnd;
      sendFrameLen, sendHeaderLen, sendHeaderPos, sendMasking := 0, 0, 0, false;
      assert sendHeader[..0] == [];
    }

    method SendPayload(sock: Socket, len: nat)
            returns (rv: Status, ghost moved: nat, ghost op: Status, ghost wire: seq<byte>)
      requires Valid() && sendFrameLen > 0
      modifies `sendPos, `sendFrameLen, `sendHeaderLen, `sendHeaderPos, `sendFramePos, `sendMasking, sock`outgoing
      ensures Valid() && old(sendFramePos) + moved <= old(sendFrameEnd) <= sendBuffer.Length
      ensures (rv, SenderValue(), wire) == PayloadStep(old(SenderValue()), len, moved, op)
      ensures sock.outgoing == old(sock.outgoing) + wire
    {
      hide HeaderSize, ReceiverValue, EndFrame;
      moved, op, wire := 0, Success, [];
      if len < sendFrameLen {
        assert sock.outgoing + [] == sock.outgoing;
        return ConnectionError, moved, op, wire;
      }
      var status, pos := sock.Send(sendBuffer, sendFramePos, sendFrameEnd - sendFramePos);
      assert sendBuffer[sendFramePos..pos] == sendBuffer[..][sendFramePos..pos];
      moved, op, wire := pos - sendFramePos, status, sendBuffer[sendFramePos..pos];
      sendFramePos := pos;
      if status != Success {
        return status, moved, op, wire;
      }
      if sendFramePos < sendFrameEnd {
        return Success, moved, op, wire;
      }
      FinishFrame();
      return Success, moved, op, wire;
    }

    /** One send pass: header first, then payload; only a finished frame moves send_buffer_pos. */
    method BufferSend(sock: Socket, len: nat, random: key)
            returns (rv: Status, ghost call: SendCall, ghost wire: seq<byte>)
      requires Valid() && sendPos + len <= sendBuffer.Length && (len > 0 || sendFrameLen > 0)
      modifies `sendPos, `sendFrameLen, `sendFrameEnd, `sendHeaderLen, `sendHeaderPos, `sendFramePos, `sendMasking,
              sendHeader, sendBuffer, sock`outgoing
      ensures Valid() && call.random == random && SendLegal(old(SenderValue()), len, isServer, call)
      ensures (rv, SenderValue(), wire) == WebSocket.BufferSend(old(SenderValue()), len, isServer, call)
      ensures sock.outgoing == old(sock.outgoing) + wire
      ensures recvPos <= recvBuffer.Length && ReceiverValue() == old(ReceiverValue())
    {
      hide WebSocket.BeginFrame, HeaderStep, PayloadStep, HeaderRoom, ReceiverValue;
      ghost var s := SenderValue();
      if sendFrameLen == 0 && len > 0 {
        BeginFrame(len, random);
      }
      ghost var t := SenderValue();
      assert t == Started(s, len, isServer, random);
      assert t.framePos <= t.frameEnd <= |t.out|;
      hide Started;
      var on;
      ghost var k, op;
      rv, on, k, op, wire := SendHeader(sock);
      call := SendCall(random, k, op, 0, Success);
      if !on {
        HeaderKeepsFrame(t, k, op);
        return;
      }
      HeaderKeepsFrame(t, k, op);
      ghost var k2, op2, more;
      rv, k2, op2, more := SendPayload(sock, len);
      call := SendCall(random, k, op, k2, op2);
      ConcatAssoc(old(sock.outgoing), wire, more);
      wire := wire + more;
    }

    // ---- receiving ----

    method ReadHeaderBytes(sock: Socket, len: nat) returns (rv: Status, ghost more: seq<byte>)
      requires Valid() && recvHeaderPos + len <= 14
      modifies `recvHeaderPos, recvHeader, sock`incoming
      ensures Valid() && |more| <= len && old(sock.incoming) == more + sock.incoming
      ensures ReceiverValue() == old(ReceiverValue()).(header := old(ReceiverValue()).header + more)
    {
      var pos;
      rv, pos := sock.Recv(recvHeader, recvHeaderPos, len);
      more := old(sock.incoming)[..pos - recvHeaderPos];
      assert recvHeader[..pos] == recvHeader[..recvHeaderPos] + recvHeader[recvHeaderPos..pos];
      recvHeaderPos := pos;
    }

    method ParseHeader()
      requires Valid() && 2 <= recvHeaderPos && recvHeaderPos == HeaderSize(recvHeader[1])
      modifies `recvFrameLen, `recvMask, `recvInFrame
      ensures Valid() && recvInFrame && ReceiverValue() == WebSocket.ParseHeader(old(ReceiverValue()))
    {
      hide GetBE;
      var h := recvHeader[..recvHeaderPos];
      var len7 := recvHeader[1] as nat % 128;
      if len7 == 126 {
        recvFrameLen := GetBE(h[2..4]);
      } else if len7 == 127 {
        recvFrameLen := GetBE(h[2..10]);
      } else {
        recvFrameLen := len7;
      }
      if recvHeader[1] >= 128 {
        var tail := h[recvHeaderPos - 4..];
        assert recvHeaderPos >= 6 && |tail| == 4;
        recvMask := tail;
      }
      recvInFrame := true;
    }

    /** Payload bytes are received behind what is there and unmasked in place. */
    method ReadFrame(sock: Socket, len: nat) returns (rv: Status, ghost data: seq<byte>, ghost op: Status)
      requires Valid() && recvPos + len <= recvBuffer.Length
      modifies `recvPos, `recvFramePos, recvBuffer, sock`incoming
      ensures Valid() && |data| <= DataRequest(old(ReceiverValue()), len) && old(sock.incoming) == data + sock.incoming
      ensures (rv, ReceiverValue()) == WebSocket.ReadFrame(old(ReceiverValue()),
          RecvCall([], Success, [], Success, data, op))
    {
      hide Masked, Request, Splice;
      var n := Request(recvFrameLen, recvPos, recvFramePos, len);
      var prev := recvPos;
      ghost var before := recvBuffer[..prev];
      var status, pos := sock.Recv(recvBuffer, recvPos, n);
      data, op := old(sock.incoming)[..pos - prev], status;
      recvPos := pos;
      SpliceGrows(old(recvBuffer[..]), prev, data);
      assert recvBuffer[..pos] == recvBuffer[..][..pos] && recvBuffer[prev..pos] == recvBuffer[..][prev..pos];
      if status != Success {
        return status, data, op;
      }
      ghost var received := recvBuffer[..];
      assert received[..prev] == before;
      ApplyMask(recvBuffer, prev, pos - prev, recvMask, recvFramePos);
      SpliceGrows(received, prev, Masked(data, recvMask, recvFramePos));
      assert recvBuffer[..pos] == recvBuffer[..][..pos];
      recvFramePos := recvFramePos + (pos - prev);
      return Success, data, op;
    }

    /** The header behind its first two bytes, and what it says once it is complete. */
    method ReceiveRest(sock: Socket) returns (rv: Status, on: bool, ghost more: seq<byte>, ghost op: Status)
      requires Valid() && !recvInFrame && 2 <= recvHeaderPos && HeaderBounded()
      modifies `recvHeaderPos, `recvFrameLen, `recvMask, `recvInFrame, recvHeader, sock`incoming
      ensures Valid() && HeaderBounded() && (on ==> recvInFrame) && old(sock.incoming) == more + sock.incoming
      ensures var s := old(ReceiverValue());
              var size, t := HeaderSize(s.header[1]), s.(header := s.header + more);
              && |t.header| <= size && (|s.header| == size ==> more == [])
              && (rv, on, ReceiverValue())
              == if |s.header| < size && op != Success then (op, false, t)
                 else if |t.header| < size then (Success, false, t)
                 else (Success, true, WebSocket.ParseHeader(t))
    {
      hide WebSocket.ParseHeader, HeaderSize;
      more, op := [], Success;
      ghost var s := ReceiverValue();
      assert s.(header := s.header + []) == s;
      var size := HeaderSize(recvHeader[1]);
      HeaderSizeBounds(recvHeader[1]);
      if recvHeaderPos < size {
        rv, more := ReadHeaderBytes(sock, size - recvHeaderPos);
        op := rv;
        if rv != Success || recvHeaderPos < size {
          on := false;
          return;
        }
      }
      ParseHeader();
      rv, on := Success, true;
    }

    method ReceiveHeader(sock: Socket) returns (rv: Status, on: bool, ghost call: RecvCall)
      requires Valid() && !recvInFrame && HeaderBounded()
      modifies `recvHeaderPos, `recvFrameLen, `recvMask, `recvInFrame, recvHeader, sock`incoming
      ensures Valid() && HeaderBounded() && (on ==> recvInFrame) && call.data == []
          && HeaderLegal(old(ReceiverValue()), call)
      ensures old(sock.incoming) == call.first + call.second + sock.incoming
      ensures (rv, on, ReceiverValue()) == HeaderRead(old(ReceiverValue()), call)
    {
      hide WebSocket.ParseHeader, HeaderSize;
      call := RecvCall([], Success, [], Success, [], Success);
      ghost var more, op;
      if recvHeaderPos < 2 {
        rv, more := ReadHeaderBytes(sock, 2 - recvHeaderPos);
        call := call.(first := more, firstRv := rv);
        assert more + [] == more;
        HeaderSizeBounds(recvHeader[1]);
        if rv != Success || recvHeaderPos < 2 {
          on := false;
          return;
        }
      }
      ghost var s1 := ReceiverValue();
      assert s1 == ReadFirst(old(ReceiverValue()), call) && s1.(header := s1.header + []) == s1;
      rv, on, more, op := ReceiveRest(sock);
      call := call.(second := more, secondRv := op);
      ConcatAssoc(call.first, more, sock.incoming);
    }

    /** One receive pass. */
    method BufferRecv(sock: Socket, len: nat) returns (rv: Status, ghost call: RecvCall)
      requires Valid() && recvPos + len <= recvBuffer.Length && HeaderBounded()
      modifies `recvPos, `recvFramePos, `recvFrameLen, `recvHeaderPos, `recvMask, `recvInFrame, recvHeader,
              recvBuffer, sock`incoming
      ensures Valid() && HeaderBounded() && RecvLegal(old(ReceiverValue()), len, call)
          && old(sock.incoming) == Delivered(call) + sock.incoming
      ensures (rv, ReceiverValue()) == WebSocket.BufferRecv(old(ReceiverValue()), len, call)
    {
      hide HeaderRead, HeaderLegal, WebSocket.ReadFrame, DataRequest;
      if recvFramePos == recvFrameLen && recvInFrame {
        recvFramePos, recvFrameLen, recvHeaderPos, recvInFrame := 0, 0, 0, false;
        assert recvHeader[..0] == [];
      }
      ghost var s := ReceiverValue();
      assert s == ResetFrame(old(ReceiverValue()));
      hide ResetFrame;
      call := RecvCall([], Success, [], Success, [], Success);
      if !recvInFrame {
        var on;
        rv, on, call := ReceiveHeader(sock);
        if !on {
          assert call.first + call.second + [] == call.first + call.second;
          return;
        }
      }
      ghost var before, t, data, op := call, ReceiverValue(), [], Success;
      rv, data, op := ReadFrame(sock, len);
      call := call.(data := data, dataRv := op);
      DataAside(s, before, data, op);
      DataOnly(t, data, op, call);
      ConcatAssoc(call.first + call.second, data, sock.incoming);
      assert [] + [] + data == data;
    }
  }

  lemma PreparedLength(len: nat, isServer: bool, random: key)
    ensures 2 <= |PreparedHeader(len, isServer, random)| <= 8
  {
    hide LengthByte;
  }

  lemma HeaderSizeBounds(second: byte)
    ensures 2 <= HeaderSize(second) <= 14
  {
  }

  /** The header part of a pass does not look at the payload call. */
  lemma DataAside(s: Receiver, c: RecvCall, data: seq<byte>, op: Status)
    ensures HeaderLegal(s, c) == HeaderLegal(s, c.(data := data, dataRv := op))
    ensures HeaderLegal(s, c) ==> HeaderRead(s, c) == HeaderRead(s, c.(data := data, dataRv := op))
  {
    hide WebSocket.ParseHeader, HeaderSize;
  }

  lemma DataOnly(t: Receiver, data: seq<byte>, op: Status, c: RecvCall)
    requires c.data == data && c.dataRv == op
    ensures WebSocket.ReadFrame(t, c) == WebSocket.ReadFrame(t, RecvCall([], Success, [], Success, data, op))
  {
    hide Masked;
  }

  lemma HeaderKeepsFrame(t: Sender, moved: nat, rv: Status)
    requires moved <= HeaderRoom(t)
    ensures var u := HeaderStep(t, moved, rv).2;
            u.framePos == t.framePos && u.frameEnd == t.frameEnd && u.out == t.out && u.frameLen == t.frameLen
  {
  }
}

