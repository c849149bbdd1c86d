/** The WebSocket frame path of tcp_transport.c, against sections 5.2 and 5.3 of RFC 6455. */
module WebSocket {
  import opened Base
  import opened ScatterGather

  type key = s: seq<byte> | |s| == 4 witness NO_KEY

  const NO_KEY: seq<byte> := [0, 0, 0, 0]

  // ---- masking (section 5.3) ----

  /** The bytes from position at of a payload, masked with the key. */
  function Masked(m: seq<byte>, k: key, at: nat): (r: seq<byte>)
    ensures |r| == |m|
  {
    seq(|m|, i requires 0 <= i < |m| => Xor(m[i], k[(at + i) % 4]))
  }

  lemma MaskedTwice(m: seq<byte>, k: key, at: nat)
    ensures Masked(Masked(m, k, at), k, at) == m
  {
    hide Xor;
    forall i | 0 <= i < |m| ensures Masked(Masked(m, k, at), k, at)[i] == m[i] {
      XorTwice(m[i], k[(at + i) % 4]);
    }
  }

  /** A piece of the masked payload, masked again where it stands, is that piece of the payload. */
  lemma MaskedPiece(m: seq<byte>, k: key, at: nat, n: nat)
    requires at + n <= |m|
    ensures Masked(Masked(m, k, 0)[at..at + n], k, at) == m[at..at + n]
  {
    hide Xor;
    var p, q := Masked(Masked(m, k, 0)[at..at + n], k, at), m[at..at + n];
    forall i | 0 <= i < n ensures p[i] == q[i] {
      XorTwice(m[at + i], k[(at + i) % 4]);
    }
  }

  /** The exact condition under which a mask leaves a payload as it is. */
  lemma MaskedSameIff(m: seq<byte>, k: key)
    ensures Masked(m, k, 0) == m <==> forall i | 0 <= i < |m| && i < 4 :: k[i] == 0
  {
    hide Xor;
    if Masked(m, k, 0) == m {
      forall i | 0 <= i < |m| && i < 4 ensures k[i] == 0 {
        XorKeeps(m[i], k[(0 + i) % 4]);
        assert Masked(m, k, 0)[i] == m[i];
      }
    }
    if forall i | 0 <= i < |m| && i < 4 :: k[i] == 0 {
      forall i | 0 <= i < |m| ensures Masked(m, k, 0)[i] == m[i] {
        XorKeeps(m[i], k[(0 + i) % 4]);
        assert i % 4 <= i;
      }
    }
  }

  // ---- frames (section 5.2) ----

  function BE16(n: u16): (r: seq<byte>)
    ensures |r| == 2
  {
    [(n / 0x100) as byte, (n % 0x100) as byte]
  }

  function GetBE(s: seq<byte>): nat {
    if s == [] then 0 else 0x100 * GetBE(s[..|s| - 1]) + s[|s| - 1] as nat
  }

  lemma BE16RoundTrip(n: u16)
    ensures GetBE(BE16(n)) == n
  {
    var s := BE16(n);
    assert s[..1][..0] == [];
    assert GetBE(s[..1]) == (n / 0x100) as nat;
  }

  /** The second header byte. */
  function LengthByte(len7: nat, masked: bool): byte
    requires len7 < 128
  {
    (len7 + if masked then 128 else 0) as byte
  }

  /** One final binary frame header with the shortest length form. */
  function FrameHeader(n: nat, mask: Option<key>): seq<byte>
    requires n <= U16_MAX
  {
    [0x82] + (if n <= 125 then [LengthByte(n, mask.Some?)] else [LengthByte(126, mask.Some?)] + BE16(n))
    + (if mask.Some? then mask.value else [])
  }

  function Payload(m: seq<byte>, mask: Option<key>): (r: seq<byte>)
    ensures |r| == |m|
  {
    if mask.Some? then Masked(m, mask.value, 0) else m
  }

  function Frame(m: seq<byte>, mask: Option<key>): seq<byte>
    requires |m| <= U16_MAX
  {
    FrameHeader(|m|, mask) + Payload(m, mask)
  }

  datatype Decoded = Decoded(fin: bool, opcode: nat, payload: seq<byte>, size: nat)

  /** A decoder written from the standard: FIN and opcode, the three length forms, the masking
      bit and key, and the unmasked payload data. */
  function DecodeFrame(f: seq<byte>): Option<Decoded> {
    if |f| < 2 then None
    else
      var len7 := f[1] as nat % 128;
      var ext := if len7 == 126 then 2 else if len7 == 127 then 8 else 0;
      var masked := f[1] >= 128;
      var start := 2 + ext + if masked then 4 else 0;
      if |f| < start then None
      else
        var n := if ext == 0 then len7 else GetBE(f[2..2 + ext]);
        if |f| < start + n then None
        else
          var data := f[start..start + n];
          Some(Decoded(f[0] >= 128, f[0] as nat % 16, if masked then Masked(data, f[start - 4..start], 0) else data,
              start + n))
  }

  lemma HeaderPieces(n: nat, mask: Option<key>, tail: seq<byte>)
    requires n <= U16_MAX
    ensures var h := FrameHeader(n, mask);
            var f := h + tail;
            var ext := if n <= 125 then 0 else 2;
            && |h| == 2 + ext + (if mask.Some? then 4 else 0)
            && f[0] == 0x82 && f[1] == LengthByte(if n <= 125 then n else 126, mask.Some?)
            && (n > 125 ==> f[2..4] == h[2..4] == BE16(n))
            && (mask.Some? ==> f[|h| - 4..|h|] == h[|h| - 4..] == mask.value)
            && f[|h|..] == tail
  {
    hide BE16;
  }

  lemma Tail(f: seq<byte>, start: nat, n: nat)
    requires |f| == start + n
    ensures f[start..start + n] == f[start..]
  {
  }

  lemma DecodesTo(f: seq<byte>, n: u16, masked: bool, start: nat, k: key)
    requires start == 2 + (if n <= 125 then 0 else 2) + (if masked then 4 else 0) && |f| == start + n
    requires f[0] == 0x82 && f[1] == LengthByte(if n <= 125 then n else 126, masked)
    requires n > 125 ==> f[2..4] == BE16(n)
    requires masked ==> f[start - 4..start] == k
    ensures DecodeFrame(f) == Some(Decoded(true, 2, if masked then Masked(f[start..], k, 0) else f[start..], |f|))
  {
    hide Masked, BE16, GetBE;
    BE16RoundTrip(n);
    Tail(f, start, n);
  }

  /** The frame is what the standard asks for: final, binary, the whole payload and nothing
      else, in the shortest length form. */
  lemma FrameDecodes(m: seq<byte>, mask: Option<key>)
    requires |m| <= U16_MAX
    ensures DecodeFrame(Frame(m, mask)) == Some(Decoded(true, 2, m, |Frame(m, mask)|))
    ensures |Frame(m, mask)| == |m| + (if |m| <= 125 then 2 else 4) + (if mask.Some? then 4 else 0)
  {
    HeaderPieces(|m|, mask, Payload(m, mask));
    hide Masked, BE16, FrameHeader, DecodeFrame, LengthByte;
    DecodesTo(Frame(m, mask), |m|, mask.Some?, |FrameHeader(|m|, mask)|, if mask.Some? then mask.value else NO_KEY);
    if mask.Some? {
      MaskedTwice(m, mask.value, 0);
    }
  }

  // ---- sending ----

  /** Send buffer and position, and the sender's part of the transport storage; header holds
      the send_websocket_header_len bytes of the frame in progress. */
  datatype Sender = Sender(
    out: seq<byte>, pos: nat, frameLen: nat, header: seq<byte>, headerPos: nat, framePos: nat, frameEnd: nat,
        masking: bool)

  /** The random key, and what the two socket calls of one pass do. */
  datatype SendCall = SendCall(random: key, headerMoved: nat, headerRv: Status, dataMoved: nat, dataRv: Status)

  function BE16OfSize(n: nat): seq<byte> {
    BE16(U16OfSize(n))
  }

  function PreparedHeader(len: nat, isServer: bool, random: key): seq<byte> {
    [0x82, LengthByte(if len > 125 then 126 else len, !isServer)] + (if len > 125 then BE16OfSize(len) else [])
        + (if !isServer then random else [])
  }

  /** Prepare a frame for len bytes: header, key, and the payload masked in place. */
  function BeginFrame(s: Sender, len: nat, isServer: bool, random: key): Sender
    requires s.pos + len <= |s.out|
  {
    var n := if len >= U16_MAX then U16_MAX else len;
    var masking := s.masking || !isServer;
    s.(header := PreparedHeader(len, isServer, random), frameLen := n, frameEnd := n + s.pos, framePos := s.pos,
        masking := masking,
       out := if masking then Splice(s.out, s.pos, Masked(s.out[s.pos..s.pos + n], random, 0)) else s.out)
  }

  /** How much the two socket calls are asked to take. */
  function HeaderRoom(s: Sender): nat {
    if s.headerPos < |s.header| then |s.header| - s.headerPos else 0
  }

  function EndFrame(s: Sender): Sender {
    s.(pos := s.frameEnd, frameLen := 0, header := [], headerPos := 0, masking := false)
  }

  function Started(s: Sender, len: nat, isServer: bool, random: key): Sender
    requires s.pos + len <= |s.out|
  {
    if s.frameLen == 0 && len > 0 then BeginFrame(s, len, isServer, random) else s
  }

  predicate SendLegal(s: Sender, len: nat, isServer: bool, c: SendCall)
    requires s.pos + len <= |s.out|
  {
    var t := Started(s, len, isServer, c.random);
    && c.headerMoved <= HeaderRoom(t)
    && t.framePos + c.dataMoved <= t.frameEnd <= |t.out|
  }

  /** The header's socket call: status, whether the pass goes on, state, bytes. */
  function HeaderStep(t: Sender, moved: nat, rv: Status): (Status, bool, Sender, seq<byte>)
    requires moved <= HeaderRoom(t)
  {
    if HeaderRoom(t) == 0 then (Success, true, t, [])
    else
      var u := t.(headerPos := t.headerPos + moved);
      (rv, rv == Success && u.headerPos == |u.header|, u, t.header[t.headerPos..u.headerPos])
  }

  /** The payload's socket call; a finished frame moves send_buffer_pos. */
  function PayloadStep(u: Sender, len: nat, moved: nat, rv: Status): (Status, Sender, seq<byte>)
    requires u.framePos + moved <= u.frameEnd <= |u.out|
  {
    if len < u.frameLen then (ConnectionError, u, [])
    else
      var v := u.(framePos := u.framePos + moved);
      var w := u.out[u.framePos..v.framePos];
      if rv != Success then (rv, v, w) else if v.framePos < v.frameEnd then (Success, v, w)
          else (Success, EndFrame(v), w)
  }

  /** One send pass: status, state, and the bytes put on the wire. */
  function BufferSend(s: Sender, len: nat, isServer: bool, c: SendCall): (Status, Sender, seq<byte>)
    requires s.pos + len <= |s.out| && SendLegal(s, len, isServer, c)
  {
    var (rv, on, u, w) := HeaderStep(Started(s, len, isServer, c.random), c.headerMoved, c.headerRv);
    if !on then (rv, u, w)
    else
      var (rv2, v, x) := PayloadStep(u, len, c.dataMoved, c.dataRv);
      (rv2, v, w + x)
  }

  /** The status of a pass: the header call's failure, else nothing as long as header bytes are left, else an
      error if the caller now wants less than the frame holds, else that of the payload call. */
  lemma SendStatus(s: Sender, len: nat, isServer: bool, c: SendCall)
    requires s.pos + len <= |s.out| && SendLegal(s, len, isServer, c)
    ensures var t, (rv, u, w) := Started(s, len, isServer, c.random), BufferSend(s, len, isServer, c);
            && (HeaderRoom(t) > 0 && c.headerRv != Success ==> rv == c.headerRv && |w| == c.headerMoved)
            && (HeaderRoom(t) > c.headerMoved && c.headerRv == Success ==> rv == Success && |w| == c.headerMoved)
            && (HeaderRoom(t) == c.headerMoved && (HeaderRoom(t) > 0 ==> c.headerRv == Success) ==>
                  if len < t.frameLen then rv == ConnectionError && |w| == c.headerMoved
                  else rv == c.dataRv && |w| == c.headerMoved + c.dataMoved)
  {
    hide Started;
  }

  /** The length that a header announces in the one-byte or the two-byte form. */
  function AnnouncedLength(header: seq<byte>): nat
    requires |header| >= 4 || (|header| >= 2 && header[1] as nat % 128 != 126)
  {
    if header[1] as nat % 128 == 126 then GetBE(header[2..4]) else header[1] as nat % 128
  }

  /** The frame that is begun holds at most 65535 bytes; its header announces what it holds if and only if
      the message has at most 65535 bytes, or a length of 65535 modulo 65536. */
  lemma AnnouncesIff(s: Sender, len: nat, isServer: bool, random: key)
    requires 0 < len && s.pos + len <= |s.out|
    ensures var t := BeginFrame(s, len, isServer, random);
            && |t.header| >= 2 && (t.header[1] as nat % 128 == 126 ==> |t.header| >= 4)
            && t.frameLen == t.frameEnd - t.framePos == (if len <= U16_MAX then len else U16_MAX)
            && (AnnouncedLength(t.header) == t.frameLen <==> len <= U16_MAX || len % 0x1_0000 == U16_MAX)
            && (t.masking <==> s.masking || !isServer)
  {
    var t := BeginFrame(s, len, isServer, random);
    if len > 125 {
      BE16RoundTrip(U16OfSize(len));
      assert t.header[2..4] == BE16OfSize(len);
    }
    hide Masked, GetBE, BE16;
  }

  /** A failing input: the frame of a message of 65536 bytes announces none and carries 65535. */
  lemma LongMessageAnnouncesNone() returns (s: Sender, t: Sender)
    ensures s.pos == 0 && |s.out| == 0x1_0000 && t == BeginFrame(s, 0x1_0000, true, NO_KEY)
    ensures |t.header| == 4 && AnnouncedLength(t.header) == 0 && t.frameLen == U16_MAX
  {
    s := Sender(seq(0x1_0000, _ => 0), 0, 0, [], 0, 0, 0, false);
    t := BeginFrame(s, 0x1_0000, true, NO_KEY);
    AnnouncesIff(s, 0x1_0000, true, NO_KEY);
    BE16RoundTrip(0);
    assert t.header[2..4] == BE16(0);
  }

  /** A message of 1 to 65535 bytes is at the front of the buffer and nothing of it is sent. */
  predicate Ready(s: Sender, m: seq<byte>) {
    && 0 < |m| <= U16_MAX && |m| <= |s.out| && s.out[..|m|] == m
    && s.pos == 0 && s.frameLen == 0 && s.header == [] && s.headerPos == 0 && !s.masking
  }

  /** In the middle of its frame, with w on the wire so far. */
  predicate Underway(s: Sender, m: seq<byte>, mask: Option<key>, w: seq<byte>) {
    && 0 < |m| <= U16_MAX && |m| <= |s.out| && s.out[..|m|] == Payload(m, mask)
    && s.pos == 0 && s.frameLen == |m| == s.frameEnd && s.header == FrameHeader(|m|, mask)
    && s.headerPos <= |s.header| && s.framePos <= |m| && (s.headerPos < |s.header| ==> s.framePos == 0)
    && w == s.header[..s.headerPos] + s.out[..s.framePos]
  }

  predicate Complete(s: Sender, m: seq<byte>, mask: Option<key>, w: seq<byte>) {
    && 0 < |m| <= U16_MAX && w == Frame(m, mask)
    && s.pos == s.framePos == |m| && s.frameLen == 0 && s.header == [] && s.headerPos == 0 && !s.masking
  }

  lemma FrameStarts(s: Sender, m: seq<byte>, isServer: bool, random: key)
    requires Ready(s, m)
    ensures Started(s, |m|, isServer, random).pos == 0
    ensures Underway(Started(s, |m|, isServer, random), m, if isServer then None else Some(random), [])
  {
    hide Masked, BE16;
    var t := Started(s, |m|, isServer, random);
    assert s.out[0..|m|] == m;
    if !isServer {
      assert t.out[..|m|] == Masked(m, random, 0);
    }
    assert t.header[..0] + t.out[..0] == [];
  }

  lemma WireSoFar(s: Sender, m: seq<byte>, mask: Option<key>, w: seq<byte>)
    requires Underway(s, m, mask, w)
    ensures w <= Frame(m, mask)
    ensures s.headerPos == |s.header| && s.framePos == |m| ==> w == Frame(m, mask)
  {
    hide FrameHeader;
    assert s.out[..s.framePos] == Payload(m, mask)[..s.framePos];
    if s.headerPos < |s.header| {
      assert w == s.header[..s.headerPos];
    } else {
      assert s.header[..s.headerPos] == s.header;
    }
  }

  lemma HeaderPass(s: Sender, m: seq<byte>, mask: Option<key>, w: seq<byte>, n: nat)
    requires Underway(s, m, mask, w) && s.headerPos + n <= |s.header| && s.headerPos < |s.header|
    ensures Underway(s.(headerPos := s.headerPos + n), m, mask, w + s.header[s.headerPos..s.headerPos + n])
  {
    hide FrameHeader, Payload;
    assert s.header[..s.headerPos] + s.header[s.headerPos..s.headerPos + n] == s.header[..s.headerPos + n];
    assert s.out[..0] == [];
    assert w == s.header[..s.headerPos];
    assert s.header[..s.headerPos + n] + [] == s.header[..s.headerPos + n];
  }

  lemma DataPass(s: Sender, m: seq<byte>, mask: Option<key>, w: seq<byte>, n: nat)
    requires Underway(s, m, mask, w) && s.headerPos == |s.header| && s.framePos + n <= |m|
    ensures Underway(s.(framePos := s.framePos + n), m, mask, w + s.out[s.framePos..s.framePos + n])
  {
    hide FrameHeader, Payload;
    assert s.out[..s.framePos] + s.out[s.framePos..s.framePos + n] == s.out[..s.framePos + n];
    ConcatAssoc(s.header[..s.headerPos], s.out[..s.framePos], s.out[s.framePos..s.framePos + n]);
  }

  lemma InProgress(s: Sender, m: seq<byte>, mask: Option<key>, w: seq<byte>, isServer: bool, c: SendCall)
    requires Underway(s, m, mask, w) && SendLegal(s, |m|, isServer, c)
    ensures Started(s, |m|, isServer, c.random) == s && s.frameLen == |m| == s.frameEnd
    ensures s.headerPos <= |s.header| && s.framePos + c.dataMoved <= |m| <= |s.out|
    ensures HeaderRoom(s) == |s.header| - s.headerPos && c.headerMoved <= HeaderRoom(s)
  {
    hide FrameHeader, Payload;
  }

  /** The ways a pass can end. */
  lemma PassShape(s: Sender, n: nat, isServer: bool, c: SendCall)
    requires s.pos + n <= |s.out| && SendLegal(s, n, isServer, c)
    requires Started(s, n, isServer, c.random) == s && s.frameLen == n == s.frameEnd && s.headerPos <= |s.header|
    ensures var u := s.(headerPos := s.headerPos + c.headerMoved);
            var v := u.(framePos := u.framePos + c.dataMoved);
            var x1, x2 := s.header[s.headerPos..u.headerPos], s.out[u.framePos..v.framePos];
            BufferSend(s, n, isServer, c)
            == (if HeaderRoom(s) > 0 && c.headerRv != Success then (c.headerRv, u, x1)
                else if u.headerPos < |u.header| then (Success, u, x1)
                else if c.dataRv != Success then (c.dataRv, v, x1 + x2)
                else if v.framePos < n then (Success, v, x1 + x2)
                else (Success, EndFrame(v), x1 + x2))
  {
    hide Started;
    assert s.header[s.headerPos..s.headerPos] == [];
  }

  lemma HeaderPart(s: Sender, m: seq<byte>, mask: Option<key>, w: seq<byte>, n: nat)
    requires Underway(s, m, mask, w) && s.headerPos + n <= |s.header|
    ensures var u, x := s.(headerPos := s.headerPos + n), s.header[s.headerPos..s.headerPos + n];
            Underway(u, m, mask, w + x) && w + x <= Frame(m, mask)
  {
    var u, x := s.(headerPos := s.headerPos + n), s.header[s.headerPos..s.headerPos + n];
    if s.headerPos < |s.header| {
      HeaderPass(s, m, mask, w, n);
    } else {
      assert u == s && w + x == w;
    }
    hide Underway, Frame;
    WireSoFar(u, m, mask, w + x);
  }

  lemma DataPart(s: Sender, m: seq<byte>, mask: Option<key>, w: seq<byte>, n: nat)
    requires Underway(s, m, mask, w) && s.headerPos == |s.header| && s.framePos + n <= |m| <= |s.out|
    ensures var v, x := s.(framePos := s.framePos + n), s.out[s.framePos..s.framePos + n];
            && Underway(v, m, mask, w + x) && w + x <= Frame(m, mask)
            && (v.framePos == |m| ==> Complete(EndFrame(v), m, mask, w + x))
  {
    hide *;
    var v, x := s.(framePos := s.framePos + n), s.out[s.framePos..s.framePos + n];
    DataPass(s, m, mask, w, n);
    WireSoFar(v, m, mask, w + x);
    AfterPass(v, m, mask, w + x);
  }

  /** One pass over a frame in progress. */
  lemma PassAdvances(s: Sender, m: seq<byte>, isServer: bool, mask: Option<key>, w: seq<byte>, c: SendCall)
    requires Underway(s, m, mask, w) && SendLegal(s, |m|, isServer, c)
    ensures var (rv, t, x) := BufferSend(s, |m|, isServer, c);
            && w + x <= Frame(m, mask)
            && (rv == Success ==> Underway(t, m, mask, w + x) || Complete(t, m, mask, w + x))
  {
    hide *;
    InProgress(s, m, mask, w, isServer, c);
    UnderwayBounds(s, m, mask, w);
    PassShape(s, |m|, isServer, c);
    var u := s.(headerPos := s.headerPos + c.headerMoved);
    var x1, x2 := s.header[s.headerPos..u.headerPos], s.out[u.framePos..u.framePos + c.dataMoved];
    HeaderPart(s, m, mask, w, c.headerMoved);
    if u.headerPos == |u.header| {
      DataPart(u, m, mask, w + x1, c.dataMoved);
      ConcatAssoc(w, x1, x2);
    }
  }

  lemma AfterPass(v: Sender, m: seq<byte>, mask: Option<key>, w: seq<byte>)
    ensures Underway(v, m, mask, w) && v.headerPos == |v.header| && v.framePos == |m|
        ==> Complete(EndFrame(v), m, mask, w)
  {
    if Underway(v, m, mask, w) && v.headerPos == |v.header| && v.framePos == |m| {
      WireSoFar(v, m, mask, w);
    }
  }

  /** Any number of passes, until the message is out or an error stops them. */
  function SendAll(s: Sender, n: nat, isServer: bool, calls: seq<SendCall>): Option<(Status, Sender, seq<byte>)>
    requires n <= |s.out|
    decreases calls
  {
    if calls == [] || s.pos != 0 then Some((Success, s, []))
    else if !SendLegal(s, n, isServer, calls[0]) then None
    else
      SendKeepsBuffer(s, n, isServer, calls[0]);
      var (rv, t, x) := BufferSend(s, n, isServer, calls[0]);
      if rv != Success then Some((rv, t, x))
      else match SendAll(t, n, isServer, calls[1..])
        case None => None
        case Some((rv2, u, y)) => Some((rv2, u, x + y))
  }

  lemma SendKeepsBuffer(s: Sender, n: nat, isServer: bool, c: SendCall)
    requires s.pos + n <= |s.out| && SendLegal(s, n, isServer, c)
    ensures |BufferSend(s, n, isServer, c).1.out| == |s.out|
  {
    hide Masked, BE16;
  }

  lemma {:induction false} PassesAdvance(s: Sender, m: seq<byte>, isServer: bool, mask: Option<key>, w: seq<byte>,
          calls: seq<SendCall>)
    requires Underway(s, m, mask, w)
    ensures match SendAll(s, |m|, isServer, calls)
            case None => true
            case Some((rv, t, x)) =>
              && w + x <= Frame(m, mask)
              && (rv == Success ==> Underway(t, m, mask, w + x) || Complete(t, m, mask, w + x))
    decreases calls
  {
    assert w + [] == w;
    WireSoFar(s, m, mask, w);
    UnderwayBounds(s, m, mask, w);
    if calls != [] && SendLegal(s, |m|, isServer, calls[0]) {
      PassAdvances(s, m, isServer, mask, w, calls[0]);
      hide BufferSend, Frame, Underway, Complete, SendLegal;
      var (rv, t, x) := BufferSend(s, |m|, isServer, calls[0]);
      SendKeepsBuffer(s, |m|, isServer, calls[0]);
      if rv == Success {
        if Underway(t, m, mask, w + x) {
          PassesAdvance(t, m, isServer, mask, w + x, calls[1..]);
        } else {
          CompleteStops(t, m, mask, w + x);
          assert x + [] == x;
        }
        match SendAll(t, |m|, isServer, calls[1..])
        case None =>
        case Some((rv2, u, y)) => ConcatAssoc(w, x, y);
      }
    }
  }

  lemma UnderwayBounds(s: Sender, m: seq<byte>, mask: Option<key>, w: seq<byte>)
    requires Underway(s, m, mask, w)
    ensures s.pos == 0 && |m| <= |s.out|
  {
  }

  lemma CompleteStops(s: Sender, m: seq<byte>, mask: Option<key>, w: seq<byte>)
    requires Complete(s, m, mask, w)
    ensures s.pos != 0 && w == Frame(m, mask)
  {
  }

  /** The key that the first pass draws decides the frame; servers do not mask. */
  function MaskOf(isServer: bool, random: key): Option<key> {
    if isServer then None else Some(random)
  }

  lemma StartedOnce(s: Sender, m: seq<byte>, isServer: bool, c: SendCall)
    requires Ready(s, m)
    ensures var t := Started(s, |m|, isServer, c.random);
            && t.pos == 0 && |t.out| == |s.out| && Underway(t, m, MaskOf(isServer, c.random), [])
            && SendLegal(t, |m|, isServer, c) == SendLegal(s, |m|, isServer, c)
            && (SendLegal(s, |m|, isServer, c) ==> BufferSend(t, |m|, isServer, c) == BufferSend(s, |m|, isServer, c))
  {
    FrameStarts(s, m, isServer, c.random);
    var t := Started(s, |m|, isServer, c.random);
    assert t.frameLen == |m|;
    assert Started(t, |m|, isServer, c.random) == t;
    hide BeginFrame, FrameHeader, Payload;
  }

  lemma ReadyBounds(s: Sender, m: seq<byte>)
    requires Ready(s, m)
    ensures 0 < |m| <= |s.out| && s.pos == 0 && |m| <= U16_MAX
  {
  }

  /** However the sends are cut up, the wire carries a prefix of one frame, and exactly that
      frame once when the message counts as sent. */
  lemma SendsOneFrame(s: Sender, m: seq<byte>, isServer: bool, calls: seq<SendCall>)
    requires Ready(s, m) && |calls| > 0
    ensures |m| <= U16_MAX && |m| <= |s.out|
    ensures match SendAll(s, |m|, isServer, calls)
            case None => true
            case Some((rv, t, x)) =>
              var f := Frame(m, MaskOf(isServer, calls[0].random));
              && x <= f
              && (rv == Success && t.pos != 0 ==> x == f && t.pos == |m| && t.frameLen == 0)
  {
    hide *;
    ReadyBounds(s, m);
    StartedOnce(s, m, isServer, calls[0]);
    var t := Started(s, |m|, isServer, calls[0].random);
    SendAllFrom(s, t, |m|, isServer, calls);
    PassesAdvance(t, m, isServer, MaskOf(isServer, calls[0].random), [], calls);
    match SendAll(t, |m|, isServer, calls)
    case None =>
    case Some((rv, u, x)) =>
      assert [] + x == x;
      Outcome(u, m, MaskOf(isServer, calls[0].random), x);
  }

  lemma SendAllFrom(s: Sender, t: Sender, n: nat, isServer: bool, calls: seq<SendCall>)
    requires |calls| > 0 && s.pos == t.pos == 0 && n <= |s.out| && |t.out| == |s.out|
    requires SendLegal(s, n, isServer, calls[0]) == SendLegal(t, n, isServer, calls[0])
    requires SendLegal(s, n, isServer, calls[0])
        ==> BufferSend(s, n, isServer, calls[0]) == BufferSend(t, n, isServer, calls[0])
    ensures SendAll(s, n, isServer, calls) == SendAll(t, n, isServer, calls)
  {
    hide BufferSend, SendLegal;
  }

  lemma Outcome(s: Sender, m: seq<byte>, mask: Option<key>, w: seq<byte>)
    ensures Underway(s, m, mask, w) ==> s.pos == 0
    ensures Complete(s, m, mask, w) ==> w == Frame(m, mask) && s.pos == |m| && s.frameLen == 0
  {
    hide Frame;
  }

  // ---- receiving ----

  /** The received bytes and the receiver's part of the transport storage; header holds the
      recv_websocket_header_pos bytes read so far. */
  datatype Receiver = Receiver(
    recv: seq<byte>, framePos: nat, frameLen: nat, header: seq<byte>, mask: key, inFrame: bool)

  /** What the up to three socket calls of one pass deliver. */
  datatype RecvCall = RecvCall(first: seq<byte>, firstRv: Status, second: seq<byte>, secondRv: Status, data: seq<byte>,
          dataRv: Status)

  function HeaderSize(second: byte): nat {
    var len7 := second as nat % 128;
    2 + (if len7 == 126 then 2 else 0) + (if len7 == 127 then 8 else 0) + if second >= 128 then 4 else 0
  }

  function ResetFrame(s: Receiver): Receiver {
    if s.framePos == s.frameLen && s.inFrame then s.(framePos := 0, frameLen := 0, header := [], inFrame := false)
        else s
  }

  /** The mask is only replaced by a masked frame. */
  function ParseHeader(s: Receiver): Receiver
    requires |s.header| >= 2 && |s.header| == HeaderSize(s.header[1])
  {
    var len7 := s.header[1] as nat % 128;
    s.(frameLen := if len7 == 126 then GetBE(s.header[2..4]) else if len7 == 127 then GetBE(s.header[2..10]) else len7,
       mask := if s.header[1] >= 128 then s.header[|s.header| - 4..] else s.mask,
       inFrame := true)
  }

  /** How much payload a pass asks for, on the wrapping size type. */
  function Request(frameLen: nat, recvPos: nat, framePos: nat, len: nat): (r: nat)
    ensures r <= len
  {
    var n := (frameLen + SizeSub(recvPos, framePos)) % SIZE_MODULUS;
    if n > len then len else n
  }

  function DataRequest(s: Receiver, len: nat): nat {
    Request(s.frameLen, |s.recv|, s.framePos, len)
  }

  /** The new bytes are unmasked where they stand in the frame. */
  function ReadFrame(s: Receiver, c: RecvCall): (Status, Receiver) {
    if c.dataRv != Success then (c.dataRv, s.(recv := s.recv + c.data))
    else (Success, s.(recv := s.recv + Masked(c.data, s.mask, s.framePos), framePos := s.framePos + |c.data|))
  }

  /** After the first call: the state, and whether the pass goes on. */
  function ReadFirst(s: Receiver, c: RecvCall): Receiver {
    if |s.header| < 2 then s.(header := s.header + c.first) else s
  }

  function ReadSecond(s: Receiver, c: RecvCall): Receiver
    requires |s.header| >= 2
  {
    if |s.header| < HeaderSize(s.header[1]) then s.(header := s.header + c.second) else s
  }

  /** What the socket may deliver to the header calls. */
  predicate HeaderLegal(s: Receiver, c: RecvCall) {
    var s1 := ReadFirst(s, c);
    && (if |s.header| < 2 then |s1.header| <= 2 else c.first == [])
    && if |s1.header| < 2 || (|s.header| < 2 && c.firstRv != Success) then c.second == []
       else
         var size := HeaderSize(s1.header[1]);
         if |s1.header| < size then |ReadSecond(s1, c).header| <= size else |s1.header| == size && c.second == []
  }

  /** The header part of a pass: status, whether the header is complete, state. */
  function HeaderRead(s: Receiver, c: RecvCall): (Status, bool, Receiver)
    requires HeaderLegal(s, c)
  {
    var s1 := ReadFirst(s, c);
    if |s.header| < 2 && c.firstRv != Success then (c.firstRv, false, s1)
    else if |s1.header| < 2 then (Success, false, s1)
    else
      var s2 := ReadSecond(s1, c);
      var size := HeaderSize(s1.header[1]);
      if |s1.header| < size && c.secondRv != Success then (c.secondRv, false, s2)
      else if |s2.header| < size then (Success, false, s2)
      else (Success, true, ParseHeader(s2))
  }

  /** No more than each call asks for, nothing where none is made. */
  predicate RecvLegal(s0: Receiver, len: nat, c: RecvCall) {
    var s := ResetFrame(s0);
    if s.inFrame then c.first == [] && c.second == [] && |c.data| <= DataRequest(s, len)
    else HeaderLegal(s, c) && if HeaderRead(s, c).1 then |c.data| <= DataRequest(HeaderRead(s, c).2, len)
        else c.data == []
  }

  /** One receive pass. */
  function BufferRecv(s0: Receiver, len: nat, c: RecvCall): (Status, Receiver)
    requires RecvLegal(s0, len, c)
  {
    var s := ResetFrame(s0);
    if s.inFrame then ReadFrame(s, c)
    else
      var (rv, on, t) := HeaderRead(s, c);
      if on then ReadFrame(t, c) else (rv, t)
  }

  function Delivered(c: RecvCall): seq<byte> {
    c.first + c.second + c.data
  }

  /** A finished frame leaves the bytes and the mask behind, and nothing else. */
  lemma ResetLeaves(s: Receiver)
    ensures ResetFrame(s)
         == if s.inFrame && s.framePos == s.frameLen then Receiver(s.recv, 0, 0, [], s.mask, false) else s
  {
  }

  /** The status of a pass is that of the first of its socket calls that fails, and every payload byte that a
      call delivers is kept, even by one that fails. */
  lemma RecvStatus(s0: Receiver, len: nat, c: RecvCall)
    requires RecvLegal(s0, len, c)
    ensures var s, (rv, t) := ResetFrame(s0), BufferRecv(s0, len, c);
            var first := !s.inFrame && |s.header| < 2;
            var head := s.header + c.first;
            var second := !s.inFrame && |head| >= 2 && (first ==> c.firstRv == Success) && |head| < HeaderSize(head[1]);
            && (first && c.firstRv != Success ==> rv == c.firstRv)
            && (second && c.secondRv != Success ==> rv == c.secondRv)
            && (!(first && c.firstRv != Success) && !(second && c.secondRv != Success) ==>
                  rv == if t.inFrame then c.dataRv else Success)
            && |t.recv| == |s0.recv| + |c.data| && t.recv[..|s0.recv|] == s0.recv
  {
    hide Masked, GetBE, HeaderSize;
    var s := ResetFrame(s0);
    assert |s.header| >= 2 && !s.inFrame ==> c.first == [] && s.header + [] == s.header;
  }

  lemma MaskedSlice(m: seq<byte>, k: key, at: nat, n: nat)
    requires at + n <= |m|
    ensures Masked(m[at..at + n], k, at) == Masked(m, k, 0)[at..at + n]
  {
    hide Xor;
  }

  /** The key the receiver applies: that of the frame, or whatever an earlier frame left behind. */
  function Applied(mask: Option<key>, stored: key): key {
    if mask.Some? then mask.value else stored
  }

  /** What the receiver makes of the payload. */
  function Seen(m: seq<byte>, mask: Option<key>, stored: key): (r: seq<byte>)
    ensures |r| == |m|
  {
    if mask.Some? then m else Masked(m, stored, 0)
  }

  lemma SeenPiece(m: seq<byte>, mask: Option<key>, stored: key, at: nat, n: nat)
    requires at + n <= |m|
    ensures Masked(Payload(m, mask)[at..at + n], Applied(mask, stored), at) == Seen(m, mask, stored)[at..at + n]
  {
    hide Masked;
    if mask.Some? {
      MaskedPiece(m, mask.value, at, n);
    } else {
      MaskedSlice(m, stored, at, n);
    }
  }

  /** Between frames, with recv in the buffer and k as the mask of the last masked frame. */
  predicate Between(s: Receiver, recv: seq<byte>, k: key) {
    var t := ResetFrame(s);
    !t.inFrame && t.header == [] && t.framePos == 0 && t.recv == recv && t.mask == k
  }

  /** After c bytes of the frame. */
  predicate AtFrame(s: Receiver, r0: seq<byte>, stored: key, m: seq<byte>, mask: Option<key>, c: nat) {
    && 0 < |m| <= U16_MAX
    && var h := |FrameHeader(|m|, mask)|;
    if c == 0 then Between(s, r0, stored)
    else if c < h then !s.inFrame && s.header == FrameHeader(|m|, mask)[..c] && s.framePos == 0 && s.recv == r0
        && s.mask == stored
    else if c < h + |m| then
      && s.inFrame && s.frameLen == |m| && s.framePos == c - h && s.mask == Applied(mask, stored)
      && s.recv == r0 + Seen(m, mask, stored)[..c - h]
    else c == h + |m| && Between(s, r0 + Seen(m, mask, stored), Applied(mask, stored))
  }

  lemma HeaderLength(n: nat, mask: Option<key>, second: byte)
    requires n <= U16_MAX && second == LengthByte(if n <= 125 then n else 126, mask.Some?)
    ensures HeaderSize(second) == |FrameHeader(n, mask)| >= 2
  {
    hide BE16;
  }

  /** For every frame that the standard's decoder accepts, in all three length forms: a header read in full
      has the decoder's size, and gives its payload length and, if the frame is masked, its mask. */
  lemma HeaderAgrees(s: Receiver, f: seq<byte>)
    requires DecodeFrame(f).Some? && s.header <= f && |s.header| >= 2 && |s.header| == HeaderSize(f[1])
    ensures var d, t, h := DecodeFrame(f).value, ParseHeader(s), |s.header|;
            && t.frameLen == |d.payload| && d.size == h + t.frameLen <= |f| && t.inFrame
            && d.payload == (if f[1] >= 128 then Masked(f[h..d.size], t.mask, 0) else f[h..d.size])
            && (f[1] < 128 ==> t.mask == s.mask)
            && t.recv == s.recv && t.framePos == s.framePos && t.header == s.header
  {
    DecodedFits(f);
    DecodedParts(f, |s.header|, HeaderLen(f));
    HeaderPrefix(s.header, f);
    hide Masked, GetBE, DecodeFrame, HeaderSize;
  }

  /** The payload length that the bytes of a header give. */
  function HeaderLen(f: seq<byte>): nat
    requires |f| >= 2 && |f| >= HeaderSize(f[1])
  {
    var len7 := f[1] as nat % 128;
    if len7 == 126 then GetBE(f[2..4]) else if len7 == 127 then GetBE(f[2..10]) else len7
  }

  lemma DecodedFits(f: seq<byte>)
    requires DecodeFrame(f).Some?
    ensures |f| >= 2 && HeaderSize(f[1]) <= |f|
    ensures HeaderSize(f[1]) + HeaderLen(f) <= |f| && (f[1] >= 128 ==> HeaderSize(f[1]) >= 4)
  {
    hide Masked, GetBE;
  }

  /** The n bytes behind a header of h bytes, unmasked with its last four if it has a mask. */
  function PayloadBehind(f: seq<byte>, h: nat, n: nat): (r: seq<byte>)
    ensures h + n <= |f| ==> |r| == n
  {
    if h + n > |f| then []
    else if h >= 6 && f[1] >= 128 then Masked(f[h..h + n], f[h - 4..h], 0)
    else f[h..h + n]
  }

  lemma DecodedParts(f: seq<byte>, h: nat, n: nat)
    requires DecodeFrame(f).Some? && |f| >= 2 && h == HeaderSize(f[1]) && n == HeaderLen(f)
    ensures DecodeFrame(f).value.size == h + n
    ensures DecodeFrame(f).value.payload == PayloadBehind(f, h, n)
  {
    hide Masked, GetBE;
  }

  lemma HeaderPrefix(x: seq<byte>, f: seq<byte>)
    requires x <= f && |x| >= 2 && |x| == HeaderSize(f[1])
    ensures x[1] == f[1] && HeaderLen(f) == HeaderLen(x)
    ensures f[1] >= 128 ==> |x| >= 4 && x[|x| - 4..] == f[|x| - 4..|x|]
  {
    hide GetBE;
    PrefixPiece(x, f, 1, 2);
    assert x[1] == x[1..2][0] == f[1..2][0] == f[1];
    if f[1] >= 128 {
      PrefixPiece(x, f, |x| - 4, |x|);
    }
    if f[1] as nat % 128 == 126 {
      PrefixPiece(x, f, 2, 4);
    } else if f[1] as nat % 128 == 127 {
      PrefixPiece(x, f, 2, 10);
    }
  }

  lemma PrefixPiece(x: seq<byte>, y: seq<byte>, a: nat, b: nat)
    requires x <= y && a <= b <= |x|
    ensures x[a..b] == y[a..b]
  {
    assert x == y[..|x|];
  }

  lemma ParsesHeader(s: Receiver, n: nat, mask: Option<key>)
    requires n <= U16_MAX && s.header == FrameHeader(n, mask)
    ensures |s.header| >= 2 && |s.header| == HeaderSize(s.header[1])
    ensures ParseHeader(s) == s.(frameLen := n, mask := Applied(mask, s.mask), inFrame := true)
  {
    HeaderPieces(n, mask, []);
    assert FrameHeader(n, mask) + [] == s.header;
    HeaderLength(n, mask, s.header[1]);
    hide FrameHeader, BE16, GetBE;
    if n > 125 {
      BE16RoundTrip(n);
    }
  }

  /** q payload bytes in, the state is that after the header and q bytes. */
  lemma InsideOrDone(s: Receiver, r0: seq<byte>, stored: key, m: seq<byte>, mask: Option<key>, q: nat)
    requires 0 < |m| <= U16_MAX && q <= |m|
    requires s.inFrame && s.frameLen == |m| && s.framePos == q && s.mask == Applied(mask, stored)
    requires s.recv == r0 + Seen(m, mask, stored)[..q]
    ensures AtFrame(s, r0, stored, m, mask, |FrameHeader(|m|, mask)| + q)
  {
    HeaderNotEmpty(|m|, mask);
    hide FrameHeader, Seen, Applied;
    if q == |m| {
      assert Seen(m, mask, stored)[..q] == Seen(m, mask, stored);
    }
  }

  lemma Grows(r: seq<byte>, seen: seq<byte>, p: nat, n: nat)
    requires p + n <= |seen|
    ensures r + seen[..p] + seen[p..p + n] == r + seen[..p + n]
  {
  }

  /** Payload bytes read inside the frame. */
  lemma ReadsPayload(s: Receiver, r0: seq<byte>, stored: key, m: seq<byte>, mask: Option<key>, c: RecvCall)
    requires 0 < |m| <= U16_MAX && s.inFrame && s.frameLen == |m| && s.framePos + |c.data| <= |m|
    requires s.mask == Applied(mask, stored) && s.recv == r0 + Seen(m, mask, stored)[..s.framePos]
    requires c.data == Payload(m, mask)[s.framePos..s.framePos + |c.data|] && c.dataRv == Success
    ensures AtFrame(ReadFrame(s, c).1, r0, stored, m, mask, |FrameHeader(|m|, mask)| + s.framePos + |c.data|)
  {
    hide Payload, Masked, FrameHeader, Seen, Applied, AtFrame;
    SeenPiece(m, mask, stored, s.framePos, |c.data|);
    Grows(r0, Seen(m, mask, stored), s.framePos, |c.data|);
    InsideOrDone(ReadFrame(s, c).1, r0, stored, m, mask, s.framePos + |c.data|);
  }

  lemma HeaderNotEmpty(n: nat, mask: Option<key>)
    requires n <= U16_MAX
    ensures |FrameHeader(n, mask)| >= 2
  {
    hide BE16;
  }

  lemma FramePieces(m: seq<byte>, mask: Option<key>, c: nat, n: nat)
    requires |m| <= U16_MAX && c + n <= |Frame(m, mask)|
    ensures var h := |FrameHeader(|m|, mask)|;
            && (c + n <= h ==> Frame(m, mask)[c..c + n] == FrameHeader(|m|, mask)[c..c + n])
            && (h <= c ==> Frame(m, mask)[c..c + n] == Payload(m, mask)[c - h..c + n - h])
  {
    hide FrameHeader, Payload;
  }

  lemma InsideFacts(s: Receiver, r0: seq<byte>, stored: key, m: seq<byte>, mask: Option<key>, at: nat)
    requires |m| <= U16_MAX && |FrameHeader(|m|, mask)| <= at < |Frame(m, mask)| && AtFrame(s, r0, stored, m, mask, at)
    ensures var q := at - |FrameHeader(|m|, mask)|;
            && 0 < |m| && q < |m| && s.inFrame && s.frameLen == |m| && s.framePos == q
            && s.mask == Applied(mask, stored)
            && s.recv == r0 + Seen(m, mask, stored)[..q]
  {
    HeaderNotEmpty(|m|, mask);
    hide Payload, FrameHeader, Seen, Applied;
  }

  lemma InsidePass(s: Receiver, len: nat, c: RecvCall)
    requires s.inFrame && s.framePos != s.frameLen && RecvLegal(s, len, c)
    ensures c.first == [] && c.second == [] && Delivered(c) == c.data && BufferRecv(s, len, c) == ReadFrame(s, c)
    ensures ReadFrame(s, c).0 == Success ==> c.dataRv == Success
  {
    assert c.first + c.second + c.data == c.data;
  }

  lemma ReadsInside(s: Receiver, r0: seq<byte>, stored: key, m: seq<byte>, mask: Option<key>, at: nat, len: nat,
          c: RecvCall)
    requires |m| <= U16_MAX && |FrameHeader(|m|, mask)| <= at < |Frame(m, mask)|
    requires AtFrame(s, r0, stored, m, mask, at) && RecvLegal(s, len, c) && BufferRecv(s, len, c).0 == Success
    requires at + |Delivered(c)| <= |Frame(m, mask)| && Delivered(c) == Frame(m, mask)[at..at + |Delivered(c)|]
    ensures AtFrame(BufferRecv(s, len, c).1, r0, stored, m, mask, at + |Delivered(c)|)
  {
    hide *;
    InsideFacts(s, r0, stored, m, mask, at);
    InsidePass(s, len, c);
    FramePieces(m, mask, at, |c.data|);
    FrameSize(m, mask);
    ReadsPayload(s, r0, stored, m, mask, c);
  }

  lemma FrameSize(m: seq<byte>, mask: Option<key>)
    requires |m| <= U16_MAX
    ensures |m| <= 0xFFFF && |Frame(m, mask)| == |FrameHeader(|m|, mask)| + |m|
  {
  }

  /** What the pieces of a pass are, when together they are the next bytes of the wire. */
  lemma Pieces(w: seq<byte>, a: seq<byte>, b: seq<byte>, d: seq<byte>)
    requires w == a + b + d
    ensures w[..|a|] == a && w[|a|..|a| + |b|] == b && w[|a| + |b|..] == d
  {
  }

  lemma HeaderSoFar(s: Receiver, r0: seq<byte>, stored: key, m: seq<byte>, mask: Option<key>)
    requires 0 < |m| <= U16_MAX && |s.header| < |FrameHeader(|m|, mask)|
    requires !s.inFrame && s.header == FrameHeader(|m|, mask)[..|s.header|] && s.framePos == 0 && s.recv == r0
        && s.mask == stored
    ensures AtFrame(s, r0, stored, m, mask, |s.header|)
  {
    hide FrameHeader, Seen, Applied;
    if |s.header| == 0 {
      assert s.header == [];
    }
  }

  /** The header is complete: the rest of the pass reads payload. */
  lemma HeaderDone(s: Receiver, r0: seq<byte>, stored: key, m: seq<byte>, mask: Option<key>, c: RecvCall)
    requires 0 < |m| <= U16_MAX && |c.data| <= |m|
    requires !s.inFrame && s.header == FrameHeader(|m|, mask) && s.framePos == 0 && s.recv == r0 && s.mask == stored
    requires c.data == Payload(m, mask)[..|c.data|] && c.dataRv == Success
    ensures |s.header| >= 2 && |s.header| == HeaderSize(s.header[1])
    ensures AtFrame(ReadFrame(ParseHeader(s), c).1, r0, stored, m, mask, |s.header| + |c.data|)
  {
    hide FrameHeader, Seen, Applied, AtFrame, Payload, ReadFrame, ParseHeader;
    ParsesHeader(s, |m|, mask);
    assert r0 + Seen(m, mask, stored)[..0] == r0;
    ReadsPayload(ParseHeader(s), r0, stored, m, mask, c);
  }

  /** The state a pass starts from while the header is incomplete. */
  predicate InHeader(s: Receiver, r0: seq<byte>, stored: key, h: seq<byte>) {
    !s.inFrame && |s.header| <= |h| && s.header == h[..|s.header|] && s.framePos == 0 && s.recv == r0
        && s.mask == stored
  }

  lemma StartsInHeader(s: Receiver, r0: seq<byte>, stored: key, m: seq<byte>, mask: Option<key>, at: nat)
    requires |m| <= U16_MAX && AtFrame(s, r0, stored, m, mask, at) && at < |FrameHeader(|m|, mask)|
    ensures InHeader(ResetFrame(s), r0, stored, FrameHeader(|m|, mask)) && |ResetFrame(s).header| == at
  {
    hide FrameHeader, Seen, Applied;
    var h := FrameHeader(|m|, mask);
    if at == 0 {
      assert h[..0] == [];
    }
  }

  lemma MoreHeader(s: Receiver, t: Receiver, r0: seq<byte>, stored: key, h: seq<byte>, more: seq<byte>)
    requires InHeader(s, r0, stored, h) && t == s.(header := s.header + more)
    requires |s.header| + |more| <= |h| && more == h[|s.header|..|s.header| + |more|]
    ensures InHeader(t, r0, stored, h) && |t.header| == |s.header| + |more|
  {
    assert h[..|s.header|] + h[|s.header|..|s.header| + |more|] == h[..|s.header| + |more|];
  }

  /** Where the header ends is known from its second byte. */
  lemma SizeKnown(s: Receiver, r0: seq<byte>, stored: key, n: nat, mask: Option<key>)
    requires n <= U16_MAX && InHeader(s, r0, stored, FrameHeader(n, mask)) && |s.header| >= 2
    ensures HeaderSize(s.header[1]) == |FrameHeader(n, mask)|
  {
    HeaderPieces(n, mask, []);
    assert FrameHeader(n, mask) + [] == FrameHeader(n, mask);
    HeaderLength(n, mask, FrameHeader(n, mask)[1]);
  }

  lemma SubSlice(f: seq<byte>, at: nat, n: nat, i: nat, j: nat)
    requires at + n <= |f| && i <= j <= n
    ensures f[at..at + n][i..j] == f[at + i..at + j]
  {
    var w := f[at..at + n];
    var a, b := w[i..j], f[at + i..at + j];
    forall k | 0 <= k < j - i ensures a[k] == b[k] {
      assert a[k] == w[i + k] == f[at + (i + k)] == b[k];
    }
  }

  /** Cutting the next bytes of a frame into the deliveries of one pass. */
  lemma CutFrame(f: seq<byte>, at: nat, c: RecvCall)
    requires at + |Delivered(c)| <= |f| && Delivered(c) == f[at..at + |Delivered(c)|]
    ensures c.first == f[at..at + |c.first|]
    ensures c.second == f[at + |c.first|..at + |c.first| + |c.second|]
    ensures c.data == f[at + |c.first| + |c.second|..at + |Delivered(c)|]
  {
    var w := f[at..at + |Delivered(c)|];
    Pieces(w, c.first, c.second, c.data);
    SubSlice(f, at, |w|, 0, |c.first|);
    SubSlice(f, at, |w|, |c.first|, |c.first| + |c.second|);
    SubSlice(f, at, |w|, |c.first| + |c.second|, |w|);
    assert w[0..|c.first|] == w[..|c.first|] && w[|c.first| + |c.second|..|w|] == w[|c.first| + |c.second|..];
  }

  lemma AfterFirst(s: Receiver, r0: seq<byte>, stored: key, m: seq<byte>, mask: Option<key>, c: RecvCall)
    requires |m| <= U16_MAX && InHeader(s, r0, stored, FrameHeader(|m|, mask))
    requires if |s.header| < 2 then |s.header| + |c.first| <= 2 else c.first == []
    requires |s.header| + |c.first| <= |Frame(m, mask)| && c.first == Frame(m, mask)[|s.header|..|s.header| + |c.first|]
    ensures InHeader(ReadFirst(s, c), r0, stored, FrameHeader(|m|, mask))
        && |ReadFirst(s, c).header| == |s.header| + |c.first|
  {
    HeaderNotEmpty(|m|, mask);
    FramePieces(m, mask, |s.header|, |c.first|);
    hide FrameHeader, Frame, InHeader;
    if |s.header| < 2 {
      MoreHeader(s, ReadFirst(s, c), r0, stored, FrameHeader(|m|, mask), c.first);
    }
  }

  lemma AfterSecond(s: Receiver, r0: seq<byte>, stored: key, m: seq<byte>, mask: Option<key>, c: RecvCall)
    requires |m| <= U16_MAX && InHeader(s, r0, stored, FrameHeader(|m|, mask))
    requires |s.header| >= 2 && HeaderSize(s.header[1]) == |FrameHeader(|m|, mask)|
    requires if |s.header| < |FrameHeader(|m|, mask)| then |s.header| + |c.second| <= |FrameHeader(|m|, mask)|
        else c.second == []
    requires |s.header| + |c.second| <= |Frame(m, mask)|
        && c.second == Frame(m, mask)[|s.header|..|s.header| + |c.second|]
    ensures InHeader(ReadSecond(s, c), r0, stored, FrameHeader(|m|, mask))
        && |ReadSecond(s, c).header| == |s.header| + |c.second|
  {
    FramePieces(m, mask, |s.header|, |c.second|);
    hide FrameHeader, Frame, InHeader, HeaderSize;
    if |s.header| < |FrameHeader(|m|, mask)| {
      MoreHeader(s, ReadSecond(s, c), r0, stored, FrameHeader(|m|, mask), c.second);
    }
  }

  lemma InHeaderAt(s: Receiver, r0: seq<byte>, stored: key, m: seq<byte>, mask: Option<key>)
    requires 0 < |m| <= U16_MAX && InHeader(s, r0, stored, FrameHeader(|m|, mask))
        && |s.header| < |FrameHeader(|m|, mask)|
    ensures AtFrame(s, r0, stored, m, mask, |s.header|)
  {
    hide FrameHeader, AtFrame;
    HeaderSoFar(s, r0, stored, m, mask);
  }

  lemma HeaderAll(s: Receiver, r0: seq<byte>, stored: key, m: seq<byte>, mask: Option<key>, c: RecvCall)
    requires 0 < |m| <= U16_MAX && InHeader(s, r0, stored, FrameHeader(|m|, mask))
        && |s.header| == |FrameHeader(|m|, mask)|
    requires c.dataRv == Success && |s.header| + |c.data| <= |Frame(m, mask)|
    requires c.data == Frame(m, mask)[|s.header|..|s.header| + |c.data|]
    ensures |s.header| >= 2 && |s.header| == HeaderSize(s.header[1])
    ensures AtFrame(ReadFrame(ParseHeader(s), c).1, r0, stored, m, mask, |s.header| + |c.data|)
  {
    FramePieces(m, mask, |s.header|, |c.data|);
    FrameSize(m, mask);
    hide FrameHeader, Frame, AtFrame, Payload, HeaderSize, ParseHeader, ReadFrame;
    assert s.header == FrameHeader(|m|, mask);
    assert Payload(m, mask)[0..|c.data|] == Payload(m, mask)[..|c.data|];
    HeaderDone(s, r0, stored, m, mask, c);
  }

  /** A pass that starts in the header, step by step. */
  lemma HeaderPassShape(s0: Receiver, len: nat, c: RecvCall)
    requires RecvLegal(s0, len, c) && BufferRecv(s0, len, c).0 == Success && !ResetFrame(s0).inFrame
    ensures var s := ResetFrame(s0);
            var s1 := ReadFirst(s, c);
            && (if |s.header| < 2 then |s.header| + |c.first| <= 2 else c.first == [])
            && if |s1.header| < 2 then c.second == [] && c.data == [] && BufferRecv(s0, len, c).1 == s1
               else
                 var size := HeaderSize(s1.header[1]);
                 var s2 := ReadSecond(s1, c);
                 && (if |s1.header| < size then |s1.header| + |c.second| <= size
                     else |s1.header| == size && c.second == [])
                 && if |s2.header| < size then c.data == [] && BufferRecv(s0, len, c).1 == s2
                    else
                      && |s2.header| == size && c.dataRv == Success
                      && BufferRecv(s0, len, c).1 == ReadFrame(ParseHeader(s2), c).1
  {
    hide HeaderSize, ParseHeader, DataRequest, ResetFrame, Masked;
  }

  lemma ReadsHeader(s0: Receiver, r0: seq<byte>, stored: key, m: seq<byte>, mask: Option<key>, at: nat, len: nat,
          c: RecvCall)
    requires 0 < |m| <= U16_MAX && at < |FrameHeader(|m|, mask)|
    requires AtFrame(s0, r0, stored, m, mask, at) && RecvLegal(s0, len, c) && BufferRecv(s0, len, c).0 == Success
    requires at + |Delivered(c)| <= |Frame(m, mask)| && Delivered(c) == Frame(m, mask)[at..at + |Delivered(c)|]
    ensures AtFrame(BufferRecv(s0, len, c).1, r0, stored, m, mask, at + |Delivered(c)|)
  {
    hide *;
    var h := FrameHeader(|m|, mask);
    CutFrame(Frame(m, mask), at, c);
    DeliveredLength(c);
    HeaderNotEmpty(|m|, mask);
    StartsInHeader(s0, r0, stored, m, mask, at);
    NotInFrame(ResetFrame(s0), r0, stored, h);
    HeaderPassShape(s0, len, c);
    var s := ResetFrame(s0);
    var s1 := ReadFirst(s, c);
    AfterFirst(s, r0, stored, m, mask, c);
    if |s1.header| < 2 {
      InHeaderAt(s1, r0, stored, m, mask);
    } else {
      SizeKnown(s1, r0, stored, |m|, mask);
      var s2 := ReadSecond(s1, c);
      AfterSecond(s1, r0, stored, m, mask, c);
      if |s2.header| < |h| {
        InHeaderAt(s2, r0, stored, m, mask);
      } else {
        HeaderAll(s2, r0, stored, m, mask, c);
      }
    }
  }

  lemma DeliveredLength(c: RecvCall)
    ensures |Delivered(c)| == |c.first| + |c.second| + |c.data|
  {
  }

  lemma NotInFrame(s: Receiver, r0: seq<byte>, stored: key, h: seq<byte>)
    requires InHeader(s, r0, stored, h)
    ensures !s.inFrame
  {
  }

  // ---- the round trip ----

  /** Any number of receive passes; None when a pass is not legal or fails. */
  function RecvAll(s: Receiver, calls: seq<(nat, RecvCall)>): Option<Receiver>
    decreases calls
  {
    if calls == [] then Some(s)
    else if !RecvLegal(s, calls[0].0, calls[0].1) || BufferRecv(s, calls[0].0, calls[0].1).0 != Success then None
    else RecvAll(BufferRecv(s, calls[0].0, calls[0].1).1, calls[1..])
  }

  function DeliveredAll(calls: seq<(nat, RecvCall)>): seq<byte> {
    if calls == [] then [] else Delivered(calls[0].1) + DeliveredAll(calls[1..])
  }

  lemma FrameEnds(s: Receiver, r0: seq<byte>, stored: key, m: seq<byte>, mask: Option<key>)
    requires |m| <= U16_MAX && AtFrame(s, r0, stored, m, mask, |Frame(m, mask)|)
    ensures 0 < |m| && Between(s, r0 + Seen(m, mask, stored), Applied(mask, stored))
  {
    HeaderNotEmpty(|m|, mask);
    hide FrameHeader, Seen, Applied;
  }

  lemma NothingDelivered(s: Receiver, len: nat, c: RecvCall, recv: seq<byte>, k: key)
    requires Between(s, recv, k) && RecvLegal(s, len, c) && Delivered(c) == [] && BufferRecv(s, len, c).0 == Success
    ensures Between(BufferRecv(s, len, c).1, recv, k)
  {
    DeliveredLength(c);
    hide Delivered, HeaderSize, DataRequest, ParseHeader;
    assert [] + c.first == [];
  }

  lemma EndStays(s: Receiver, r0: seq<byte>, stored: key, m: seq<byte>, mask: Option<key>, t: Receiver)
    requires 0 < |m| <= U16_MAX && Between(t, r0 + Seen(m, mask, stored), Applied(mask, stored))
    ensures AtFrame(t, r0, stored, m, mask, |Frame(m, mask)|)
  {
    HeaderNotEmpty(|m|, mask);
    hide FrameHeader, Seen, Applied, Between;
  }

  /** One pass anywhere in the frame. */
  lemma ReadsOn(s: Receiver, r0: seq<byte>, stored: key, m: seq<byte>, mask: Option<key>, at: nat, len: nat,
          c: RecvCall)
    requires 0 < |m| <= U16_MAX
    requires AtFrame(s, r0, stored, m, mask, at) && RecvLegal(s, len, c) && BufferRecv(s, len, c).0 == Success
    requires at + |Delivered(c)| <= |Frame(m, mask)| && Delivered(c) == Frame(m, mask)[at..at + |Delivered(c)|]
    ensures AtFrame(BufferRecv(s, len, c).1, r0, stored, m, mask, at + |Delivered(c)|)
  {
    hide *;
    FrameSize(m, mask);
    if at < |FrameHeader(|m|, mask)| {
      ReadsHeader(s, r0, stored, m, mask, at, len, c);
    } else if at < |Frame(m, mask)| {
      ReadsInside(s, r0, stored, m, mask, at, len, c);
    } else {
      FrameEnds(s, r0, stored, m, mask);
      assert |Delivered(c)| == 0;
      NothingDelivered(s, len, c, r0 + Seen(m, mask, stored), Applied(mask, stored));
      EndStays(s, r0, stored, m, mask, BufferRecv(s, len, c).1);
    }
  }

  lemma {:induction false} ReadsAll(s: Receiver, r0: seq<byte>, stored: key, m: seq<byte>, mask: Option<key>,
          at: nat, calls: seq<(nat, RecvCall)>)
    requires 0 < |m| <= U16_MAX && AtFrame(s, r0, stored, m, mask, at) && RecvAll(s, calls).Some?
    requires at + |DeliveredAll(calls)| <= |Frame(m, mask)|
        && DeliveredAll(calls) == Frame(m, mask)[at..at + |DeliveredAll(calls)|]
    ensures AtFrame(RecvAll(s, calls).value, r0, stored, m, mask, at + |DeliveredAll(calls)|)
    decreases calls
  {
    hide AtFrame, Frame, BufferRecv, RecvLegal, Delivered;
    if calls != [] {
      var (len, c) := calls[0];
      var n, all := |Delivered(c)|, |DeliveredAll(calls)|;
      SubSlice(Frame(m, mask), at, all, 0, n);
      SubSlice(Frame(m, mask), at, all, n, all);
      var w := DeliveredAll(calls);
      assert w[0..n] == Delivered(c) && w[n..all] == DeliveredAll(calls[1..]);
      ReadsOn(s, r0, stored, m, mask, at, len, c);
      ReadsAll(BufferRecv(s, len, c).1, r0, stored, m, mask, at + n, calls[1..]);
    }
  }

  /** The receive path fed exactly one frame, in any pieces, appends what it sees of the
      payload; that is the message itself exactly when the frame was masked or no earlier
      mask is left where it would be applied. */
  lemma ReceivesOneFrame(s: Receiver, r0: seq<byte>, stored: key, m: seq<byte>, mask: Option<key>,
          calls: seq<(nat, RecvCall)>)
    requires 0 < |m| <= U16_MAX && Between(s, r0, stored) && RecvAll(s, calls).Some?
    requires DeliveredAll(calls) == Frame(m, mask)
    ensures var t := RecvAll(s, calls).value;
            && Between(t, r0 + Seen(m, mask, stored), Applied(mask, stored))
            && (ResetFrame(t).recv == r0 + m <==> mask.Some? || forall i | 0 <= i < |m| && i < 4 :: stored[i] == 0)
  {
    AtStart(s, r0, stored, m, mask);
    hide Frame, Between, BufferRecv, RecvLegal, AtFrame, Seen, Masked, ResetFrame, DeliveredAll, RecvAll;
    assert Frame(m, mask)[0..|Frame(m, mask)|] == Frame(m, mask);
    ReadsAll(s, r0, stored, m, mask, 0, calls);
    var t := RecvAll(s, calls).value;
    FrameEnds(t, r0, stored, m, mask);
    BetweenRecv(t, r0 + Seen(m, mask, stored), Applied(mask, stored));
    SeenIff(m, mask, stored);
    assert r0 + m == r0 + Seen(m, mask, stored) <==> m == Seen(m, mask, stored) by {
      assert (r0 + m)[|r0|..] == m && (r0 + Seen(m, mask, stored))[|r0|..] == Seen(m, mask, stored);
    }
  }

  /** A failing input: a fresh receiver gets the message [0] in a frame masked with [1, 0, 0, 0], and
      then the same message in an unmasked frame; the second does not come out as [0]. */
  lemma StaleMaskApplied()
    ensures var s := Receiver([], 0, 0, [], NO_KEY, false);
            var first, second := (8, MaskedZero()), (8, PlainZero());
            && Between(s, [], NO_KEY)
            && DeliveredAll([first]) == Frame([0], Some([1, 0, 0, 0])) && DeliveredAll([second]) == Frame([0], None)
            && RecvAll(s, [first]).Some? && ResetFrame(RecvAll(s, [first]).value).recv == [0]
            && RecvAll(s, [first, second]).Some? && ResetFrame(RecvAll(s, [first, second]).value).recv != [0, 0]
  {
    hide MaskedZero, PlainZero, BufferRecv, RecvLegal, Frame, RecvAll, DeliveredAll, Between, ResetFrame;
    var s, k: key := Receiver([], 0, 0, [], NO_KEY, false), [1, 0, 0, 0];
    ZeroFrames();
    OneCall(s, 8, MaskedZero());
    ReceivesOneFrame(s, [], NO_KEY, [0], Some(k), [(8, MaskedZero())]);
    assert [] + [0 as byte] == [0];
    var t := BufferRecv(s, 8, MaskedZero()).1;
    assert Between(t, [0], k);
    PlainCall(t);
    OneCall(t, 8, PlainZero());
    TwoCalls(s, 8, MaskedZero(), 8, PlainZero());
    assert k[0] != 0 && [0 as byte] + [0] == [0, 0];
    ReceivesOneFrame(t, [0], k, [0], None, [(8, PlainZero())]);
  }

  /** The two frames of the message [0], each delivered in one pass. */
  function MaskedZero(): RecvCall {
    RecvCall([0x82, 0x81], Success, [1, 0, 0, 0], Success, [Xor(0, 1)], Success)
  }

  function PlainZero(): RecvCall {
    RecvCall([0x82, 1], Success, [], Success, [0], Success)
  }

  lemma ZeroFrames()
    ensures var s := Receiver([], 0, 0, [], NO_KEY, false);
            Between(s, [], NO_KEY) && RecvLegal(s, 8, MaskedZero()) && BufferRecv(s, 8, MaskedZero()).0 == Success
    ensures Delivered(MaskedZero()) == Frame([0], Some([1, 0, 0, 0])) && Delivered(PlainZero()) == Frame([0], None)
    ensures forall c :: DeliveredAll([(8, c)]) == Delivered(c)
  {
    forall c ensures DeliveredAll([(8, c)]) == Delivered(c) {
      DeliveredOnce(c);
    }
    MaskedCall();
    ZeroBytes();
    hide *;
  }

  lemma DeliveredOnce(c: RecvCall)
    ensures DeliveredAll([(8, c)]) == Delivered(c)
  {
    assert DeliveredAll([(8, c)]) == Delivered(c) + DeliveredAll([]);
  }

  lemma MaskedCall()
    ensures var s := Receiver([], 0, 0, [], NO_KEY, false);
            Between(s, [], NO_KEY) && RecvLegal(s, 8, MaskedZero()) && BufferRecv(s, 8, MaskedZero()).0 == Success
  {
    hide Xor;
  }

  lemma ZeroBytes()
    ensures Delivered(MaskedZero()) == Frame([0], Some([1, 0, 0, 0])) && Delivered(PlainZero()) == Frame([0], None)
  {
    hide Xor;
  }

  lemma PlainCall(t: Receiver)
    requires Between(t, [0], [1, 0, 0, 0])
    ensures RecvLegal(t, 8, PlainZero()) && BufferRecv(t, 8, PlainZero()).0 == Success
  {
    hide Xor;
  }

  lemma OneCall(s: Receiver, n: nat, c: RecvCall)
    requires RecvLegal(s, n, c) && BufferRecv(s, n, c).0 == Success
    ensures RecvAll(s, [(n, c)]) == Some(BufferRecv(s, n, c).1)
  {
    hide BufferRecv, RecvLegal;
    assert RecvAll(BufferRecv(s, n, c).1, []) == Some(BufferRecv(s, n, c).1);
  }

  lemma TwoCalls(s: Receiver, n: nat, c: RecvCall, m: nat, d: RecvCall)
    requires RecvLegal(s, n, c) && BufferRecv(s, n, c).0 == Success
    ensures RecvAll(s, [(n, c), (m, d)]) == RecvAll(BufferRecv(s, n, c).1, [(m, d)])
  {
    hide BufferRecv, RecvLegal;
    assert [(n, c), (m, d)][1..] == [(m, d)];
  }

  lemma AtStart(s: Receiver, r0: seq<byte>, stored: key, m: seq<byte>, mask: Option<key>)
    requires 0 < |m| <= U16_MAX && Between(s, r0, stored)
    ensures AtFrame(s, r0, stored, m, mask, 0)
  {
    hide FrameHeader, Between;
  }

  lemma BetweenRecv(s: Receiver, recv: seq<byte>, k: key)
    requires Between(s, recv, k)
    ensures ResetFrame(s).recv == recv
  {
  }

  lemma SeenIff(m: seq<byte>, mask: Option<key>, stored: key)
    ensures Seen(m, mask, stored) == m <==> mask.Some? || forall i | 0 <= i < |m| && i < 4 :: stored[i] == 0
  {
    MaskedSameIff(m, stored);
    hide Masked;
  }

  // ---- beyond the current frame ----

  /** Reading the payload, not yet past its end. */
  predicate InPayload(s: Receiver) {
    s.inFrame && s.framePos <= s.frameLen && s.frameLen + |s.recv| < SIZE_MODULUS
  }

  /** The exact condition under which a pass asks the socket for bytes beyond the current frame: there
      is something in the receive buffer already, this frame's first bytes included, and the caller
      wants more than what is left of the frame. */
  lemma ReachesBeyondIff(s: Receiver, len: nat)
    requires InPayload(s)
    ensures s.framePos + DataRequest(s, len) > s.frameLen <==> s.recv != [] && len > s.frameLen - s.framePos
    ensures DataRequest(s, len)
         == if len <= s.frameLen - s.framePos + |s.recv| then len else s.frameLen - s.framePos + |s.recv|
  {
    var d := |s.recv| - s.framePos;
    if d >= 0 {
      assert SizeSub(|s.recv|, s.framePos) == d;
    } else {
      assert s.framePos < SIZE_MODULUS;
      assert SizeSub(|s.recv|, s.framePos) == d + SIZE_MODULUS;
    }
  }

  /** Inside a frame with more bytes read than it has. */
  predicate PastTheEnd(s: Receiver) {
    s.inFrame && s.framePos > s.frameLen
  }

  /** A pass that reads past the end of its frame is never made good: no later pass looks for a
      header again, and every further byte counts as payload of this frame. */
  lemma {:induction false} StaysPastTheEnd(s: Receiver, calls: seq<(nat, RecvCall)>)
    requires PastTheEnd(s) && RecvAll(s, calls).Some?
    ensures var t := RecvAll(s, calls).value;
            PastTheEnd(t) && t.frameLen == s.frameLen && t.mask == s.mask
            && t.framePos == s.framePos + |DeliveredAll(calls)|
            && t.recv == s.recv + Masked(DeliveredAll(calls), s.mask, s.framePos)
    decreases calls
  {
    hide BufferRecv, RecvLegal, PastTheEnd, Masked;
    if calls != [] {
      var (n, c) := calls[0];
      var t := BufferRecv(s, n, c).1;
      PassPastTheEnd(s, n, c);
      StaysPastTheEnd(t, calls[1..]);
      MaskedJoin(c.data, DeliveredAll(calls[1..]), s.mask, s.framePos);
      ConcatAssoc(s.recv, Masked(c.data, s.mask, s.framePos), Masked(DeliveredAll(calls[1..]), s.mask, t.framePos));
    } else {
      MaskedNone(s.mask, s.framePos);
      assert s.recv + [] == s.recv;
    }
  }

  lemma PassPastTheEnd(s: Receiver, n: nat, c: RecvCall)
    requires PastTheEnd(s) && RecvLegal(s, n, c) && BufferRecv(s, n, c).0 == Success
    ensures Delivered(c) == c.data && PastTheEnd(BufferRecv(s, n, c).1)
    ensures BufferRecv(s, n, c).1
         == s.(recv := s.recv + Masked(c.data, s.mask, s.framePos), framePos := s.framePos + |c.data|)
  {
    hide Masked;
  }

  lemma MaskedNone(k: key, from: nat)
    ensures Masked([], k, from) == []
  {
  }

  lemma MaskedJoin(a: seq<byte>, b: seq<byte>, k: key, from: nat)
    ensures Masked(a + b, k, from) == Masked(a, k, from) + Masked(b, k, from + |a|)
  {
    hide Xor;
  }

  /** A failing input: with one byte in the buffer the frame of the message [5] is read together with
      the first byte of the frame behind it, which lands in the receive buffer as payload. */
  lemma NextFrameSwallowed()
    ensures var s := Receiver([9], 0, 0, [], NO_KEY, false);
            var c := RecvCall([0x82, 1], Success, [], Success, [5, 0x82], Success);
            && Between(s, [9], NO_KEY) && Delivered(c) == Frame([5], None) + [0x82]
            && RecvLegal(s, 64, c) && BufferRecv(s, 64, c).0 == Success
            && BufferRecv(s, 64, c).1.recv == [9, 5, 0x82] && PastTheEnd(BufferRecv(s, 64, c).1)
  {
    hide Xor;
    XorKeeps(5, 0);
    XorKeeps(0x82, 0);
  }

  lemma MaskedOrClean(isServer: bool, random: key, stored: key)
    requires isServer ==> stored == NO_KEY
    ensures MaskOf(isServer, random).Some? || forall i | 0 <= i < 4 :: stored[i] == 0
  {
  }

  /** The WebSocket round trip: a message of 1 to 65535 bytes, sent by a client in any pieces
      and received in any others, or by a server to a client that has met no masked frame,
      comes out as it went in. */
  lemma WebSocketRoundTrip(tx: Sender, m: seq<byte>, isServer: bool, sends: seq<SendCall>,
                           rx: Receiver, r0: seq<byte>, stored: key, receives: seq<(nat, RecvCall)>)
    requires Ready(tx, m) && |sends| > 0 && |m| <= |tx.out|
    requires SendAll(tx, |m|, isServer, sends).Some?
    requires var (rv, done, wire) := SendAll(tx, |m|, isServer, sends).value;
             rv == Success && done.pos != 0 && DeliveredAll(receives) == wire
    requires Between(rx, r0, stored) && RecvAll(rx, receives).Some? && (isServer ==> stored == NO_KEY)
    ensures 0 < |m| <= U16_MAX && SendAll(tx, |m|, isServer, sends).value.2
        == Frame(m, MaskOf(isServer, sends[0].random))
    ensures ResetFrame(RecvAll(rx, receives).value).recv == r0 + m
  {
    hide *;
    ReadyBounds(tx, m);
    MaskedOrClean(isServer, sends[0].random, stored);
    SendsOneFrame(tx, m, isServer, sends);
    ReceivesOneFrame(rx, r0, stored, m, MaskOf(isServer, sends[0].random), receives);
  }

  /** A stream of messages, the passes grouped by the frames they read. */
  function RecvGroups(s: Receiver, groups: seq<seq<(nat, RecvCall)>>): Option<Receiver>
    decreases groups
  {
    if groups == [] then Some(s)
    else
      match RecvAll(s, groups[0])
      case None => None
      case Some(t) => RecvGroups(t, groups[1..])
  }

  /** As long as no pass reads beyond its frame, any number of masked messages come out one behind
      the other, whatever keys were drawn and however each frame was cut. */
  lemma {:induction false} StreamArrives(s: Receiver, r0: seq<byte>, stored: key, ms: seq<seq<byte>>, keys: seq<key>,
          groups: seq<seq<(nat, RecvCall)>>)
    requires |ms| == |keys| == |groups| && Between(s, r0, stored) && RecvGroups(s, groups).Some?
    requires forall i | 0 <= i < |ms| ::
               0 < |ms[i]| <= U16_MAX && DeliveredAll(groups[i]) == Frame(ms[i], Some(keys[i]))
    ensures ResetFrame(RecvGroups(s, groups).value).recv == r0 + Joined(ms)
    decreases ms
  {
    hide Between, RecvAll, Frame, DeliveredAll, ResetFrame, Seen, Applied;
    if ms == [] {
      BetweenRecv(s, r0, stored);
      assert r0 + [] == r0;
    } else {
      var t := RecvAll(s, groups[0]).value;
      ReceivesOneFrame(s, r0, stored, ms[0], Some(keys[0]), groups[0]);
      SeenMasked(ms[0], keys[0], stored);
      ConcatAssoc(r0, ms[0], Joined(ms[1..]));
      StreamArrives(t, r0 + ms[0], keys[0], ms[1..], keys[1..], groups[1..]);
    }
  }

  lemma SeenMasked(m: seq<byte>, k: key, stored: key)
    ensures Seen(m, Some(k), stored) == m && Applied(Some(k), stored) == k
  {
  }
}
