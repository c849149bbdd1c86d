/** Message headers of message.c: the fixed version 2 layout and the flag-driven
    version 4 layout with its self-counting size field. */
module MessageHeaders {
  import opened Base
  import opened Wire
  import opened Headers

  type nodeid = s: seq<byte> | |s| == 16 witness NODEID_ANY

  const NODEID_ANY: seq<byte> := [0, 0, 0, 0, 0, 0, 0, 0, 0, 0, 0, 0, 0, 0, 0, 0]

  const RRAC: seq<byte> := [82, 82, 65, 67]

  datatype MessageHeader = MessageHeader(
    senderNode: nodeid, receiverNode: nodeid, senderEndpoint: u32, receiverEndpoint: u32, priority: u16,
    senderName: text, receiverName: text, metadata: text, entryCount: u32, messageId: u16, messageResId: u16)

  datatype MessageInfo = MessageInfo(
    messageSize: u32, headerSize: u32, messageFlags: byte, senderNode: seq<byte>, receiverNode: seq<byte>,
    senderEndpoint: u32, receiverEndpoint: u32, priority: u16, senderName: Span, receiverName: Span,
    metadata: Span, entryCount: u32, messageId: u16, messageResId: u16,
    entryCountOffset: Option<nat>, entryStart: nat)

  ghost predicate MessageMatches(s: seq<byte>, info: MessageInfo, h: MessageHeader) {
    && info.senderNode == h.senderNode && info.receiverNode == h.receiverNode
    && info.senderEndpoint == h.senderEndpoint && info.receiverEndpoint == h.receiverEndpoint
    && info.priority == h.priority && Holds(s, info.senderName, h.senderName)
    && Holds(s, info.receiverName, h.receiverName) && Holds(s, info.metadata, h.metadata)
    && info.entryCount == h.entryCount && info.messageId == h.messageId && info.messageResId == h.messageResId
  }

  // ---- version 2 ----

  function HeaderSize2(h: MessageHeader): nat {
    |h.senderName| + |h.receiverName| + |h.metadata| + 64
  }

  predicate Header2InRange(h: MessageHeader) {
    HeaderSize2(h) <= U16_MAX && h.entryCount <= U16_MAX
  }

  /** The bytes after the entry count. */
  function Header2Tail(h: MessageHeader): seq<byte> {
    LE16(h.messageId) + LE16(h.messageResId)
  }

  /** The bytes between the message size and the entry count. */
  function Header2Middle(h: MessageHeader): seq<byte> {
    LE16(2) + LE16(U16OfSize(HeaderSize2(h))) + h.senderNode + h.receiverNode + LE32(h.senderEndpoint)
    + LE32(h.receiverEndpoint) + Str2(h.senderName) + Str2(h.receiverName) + Str2(h.metadata)
  }

  function MessageHeader2Bytes(h: MessageHeader, size: nat, count: nat): seq<byte> {
    RRAC + LE32(U32OfSize(size)) + Header2Middle(h) + LE16(U16OfSize(count)) + Header2Tail(h)
  }

  /** The fields in front of the strings. */
  datatype Front2 = Front2(
    messageSize: u32, headerSize: u16, senderNode: seq<byte>, receiverNode: seq<byte>, senderEndpoint: u32,
    receiverEndpoint: u32)

  function ParseFront2(s: seq<byte>, o0: nat): Result<(Front2, nat)> {
    var (messageSize, o1) :- ReadU32(s, o0 + 4);
    var (_, o2) :- ReadU16(s, o1);
    var (headerSize, o3) :- ReadU16(s, o2);
    var (senderNode, o4) :- ReadBytes(s, o3, 16);
    var (receiverNode, o5) :- ReadBytes(s, o4, 16);
    var (senderEndpoint, o6) :- ReadU32(s, o5);
    var (receiverEndpoint, o7) :- ReadU32(s, o6);
    Ok((Front2(messageSize, headerSize, senderNode, receiverNode, senderEndpoint, receiverEndpoint), o7))
  }

  function ParseBack2(s: seq<byte>, o0: nat, f: Front2, o7: nat): Result<MessageInfo> {
    var (senderName, o8) :- ReadStr2(s, o7);
    var (receiverName, o9) :- ReadStr2(s, o8);
    var (metadata, o10) :- ReadStr2(s, o9);
    var (entryCount, o11) :- ReadU16(s, o10);
    var (messageId, o12) :- ReadU16(s, o11);
    var (messageResId, o13) :- ReadU16(s, o12);
    if o13 - o0 != f.headerSize then Err(Protocol)
    else Ok(MessageInfo(f.messageSize, f.headerSize, 0x53, f.senderNode, f.receiverNode, f.senderEndpoint,
                        f.receiverEndpoint, 0, senderName, receiverName, metadata, entryCount, messageId, messageResId,
                        Some(o10), o13))
  }

  function ParseMessage2(s: seq<byte>, o0: nat): Result<MessageInfo> {
    var (front, o7) :- ParseFront2(s, o0);
    ParseBack2(s, o0, front, o7)
  }

  lemma Header2Length(h: MessageHeader, size: nat, count: nat)
    ensures |Header2Middle(h)| == HeaderSize2(h) - 14
    ensures |MessageHeader2Bytes(h, size, count)| == HeaderSize2(h)
  {
    hide LE16, LE32;
  }

  ghost predicate Middle2Pieces(s: seq<byte>, o: nat, h: MessageHeader) {
    && At(s, o, LE16(2))
    && At(s, o + 2, LE16(U16OfSize(HeaderSize2(h))))
    && At(s, o + 4, h.senderNode)
    && At(s, o + 20, h.receiverNode)
    && At(s, o + 36, LE32(h.senderEndpoint))
    && At(s, o + 40, LE32(h.receiverEndpoint))
    && At(s, o + 44, Str2(h.senderName))
    && At(s, o + 46 + |h.senderName|, Str2(h.receiverName))
    && At(s, o + 48 + |h.senderName| + |h.receiverName|, Str2(h.metadata))
  }

  lemma Middle2Splits(s: seq<byte>, o: nat, h: MessageHeader)
    requires At(s, o, Header2Middle(h))
    ensures Middle2Pieces(s, o, h)
  {
    hide At, LE16, LE32, Str2, U16OfSize, HeaderSize2;
    var a1 := LE16(2);
    var a2 := a1 + LE16(U16OfSize(HeaderSize2(h)));
    var a3 := a2 + h.senderNode;
    var a4 := a3 + h.receiverNode;
    var a5 := a4 + LE32(h.senderEndpoint);
    var a6 := a5 + LE32(h.receiverEndpoint);
    var a7 := a6 + Str2(h.senderName);
    var a8 := a7 + Str2(h.receiverName);
    AtSplit(s, o, a8, Str2(h.metadata));
    AtSplit(s, o, a7, Str2(h.receiverName));
    AtSplit(s, o, a6, Str2(h.senderName));
    AtSplit(s, o, a5, LE32(h.receiverEndpoint));
    AtSplit(s, o, a4, LE32(h.senderEndpoint));
    AtSplit(s, o, a3, h.receiverNode);
    AtSplit(s, o, a2, h.senderNode);
    AtSplit(s, o, a1, LE16(U16OfSize(HeaderSize2(h))));
  }

  ghost predicate Message2Pieces(s: seq<byte>, o: nat, h: MessageHeader, size: nat, count: nat) {
    var m := o + HeaderSize2(h) - 6;
    && At(s, o, RRAC)
    && At(s, o + 4, LE32(U32OfSize(size)))
    && Middle2Pieces(s, o + 8, h)
    && At(s, m, LE16(U16OfSize(count)))
    && At(s, m + 2, LE16(h.messageId))
    && At(s, m + 4, LE16(h.messageResId))
  }

  lemma Message2Splits(s: seq<byte>, o: nat, h: MessageHeader, size: nat, count: nat)
    requires At(s, o, MessageHeader2Bytes(h, size, count))
    ensures Message2Pieces(s, o, h, size, count)
  {
    hide At, LE16, LE32, Header2Middle, Middle2Pieces;
    Header2Length(h, size, count);
    var a2 := RRAC + LE32(U32OfSize(size));
    var a3 := a2 + Header2Middle(h);
    var a4 := a3 + LE16(U16OfSize(count));
    AtSplit(s, o, a4, Header2Tail(h));
    AtSplit(s, o + |a4|, LE16(h.messageId), LE16(h.messageResId));
    AtSplit(s, o, a3, LE16(U16OfSize(count)));
    AtSplit(s, o, a2, Header2Middle(h));
    AtSplit(s, o, RRAC, LE32(U32OfSize(size)));
    Middle2Splits(s, o + 8, h);
  }

  lemma ReadBytesAt(s: seq<byte>, o: nat, b: seq<byte>)
    requires At(s, o, b)
    ensures ReadBytes(s, o, |b|) == Ok((b, o + |b|))
  {
  }

  lemma Front2Parses(s: seq<byte>, o: nat, h: MessageHeader, size: u32)
    requires At(s, o + 4, LE32(size)) && Middle2Pieces(s, o + 8, h)
    ensures ParseFront2(s, o)
         == Ok((Front2(size, U16OfSize(HeaderSize2(h)), h.senderNode, h.receiverNode, h.senderEndpoint,
             h.receiverEndpoint),
                o + 52))
  {
    hide At, ReadU16, ReadU32, ReadBytes, Str2, LE16, LE32, HeaderSize2, U16OfSize;
    ReadU32At(s, o + 4, size);
    ReadU16At(s, o + 8, 2);
    ReadU16At(s, o + 10, U16OfSize(HeaderSize2(h)));
    ReadBytesAt(s, o + 12, h.senderNode);
    ReadBytesAt(s, o + 28, h.receiverNode);
    ReadU32At(s, o + 44, h.senderEndpoint);
    ReadU32At(s, o + 48, h.receiverEndpoint);
  }

  lemma Back2Parses(s: seq<byte>, o: nat, f: Front2, h: MessageHeader, count: u16)
    requires f.headerSize == HeaderSize2(h) && At(s, o + 52, Str2(h.senderName))
    requires var o8 := o + 54 + |h.senderName|;
             var o9 := o8 + 2 + |h.receiverName|;
             var o10 := o9 + 2 + |h.metadata|;
             && At(s, o8, Str2(h.receiverName)) && At(s, o9, Str2(h.metadata)) && At(s, o10, LE16(count))
             && At(s, o10 + 2, LE16(h.messageId)) && At(s, o10 + 4, LE16(h.messageResId))
    requires |h.senderName| <= U16_MAX && |h.receiverName| <= U16_MAX && |h.metadata| <= U16_MAX
    ensures ParseBack2(s, o, f, o + 52).Ok?
    ensures var info := ParseBack2(s, o, f, o + 52).value;
            && info == MessageInfo(f.messageSize, f.headerSize, 0x53, f.senderNode, f.receiverNode, f.senderEndpoint,
                                   f.receiverEndpoint, 0, info.senderName, info.receiverName, info.metadata, count,
                                   h.messageId, h.messageResId, Some(o + HeaderSize2(h) - 6), o + HeaderSize2(h))
            && Holds(s, info.senderName, h.senderName) && Holds(s, info.receiverName, h.receiverName)
            && Holds(s, info.metadata, h.metadata)
  {
    hide At, Holds, ReadU16, ReadStr2, Str2, LE16;
    var o10 := o + 58 + |h.senderName| + |h.receiverName| + |h.metadata|;
    ReadStr2At(s, o + 52, h.senderName);
    ReadStr2At(s, o + 54 + |h.senderName|, h.receiverName);
    ReadStr2At(s, o + 56 + |h.senderName| + |h.receiverName|, h.metadata);
    ReadU16At(s, o10, count);
    ReadU16At(s, o10 + 2, h.messageId);
    ReadU16At(s, o10 + 4, h.messageResId);
  }

  /** A version 2 header in range decodes to every field but the priority, which has no place. */
  lemma Message2Parses(s: seq<byte>, o: nat, h: MessageHeader, size: u32, count: u16)
    requires HeaderSize2(h) <= U16_MAX
    requires At(s, o, MessageHeader2Bytes(h, size, count))
    ensures ParseMessage2(s, o).Ok?
    ensures var info := ParseMessage2(s, o).value;
            && info.messageSize == size && info.headerSize == HeaderSize2(h) && info.entryStart == o + HeaderSize2(h)
            && info.entryCountOffset == Some(o + HeaderSize2(h) - 6)
            && MessageMatches(s, info, h.(priority := 0, entryCount := count))
  {
    hide At, Holds, ParseFront2, ParseBack2, LE16, LE32, Str2, MessageHeader2Bytes;
    Message2Splits(s, o, h, size, count);
    Front2Parses(s, o, h, size);
    Back2Parses(s, o, ParseFront2(s, o).value.0, h, count);
  }

  // ---- version 4 ----

  const ROUTING: nat := 0x01
  const ENDPOINT: nat := 0x02
  const PRIORITY: nat := 0x04
  const META: nat := 0x10
  const MULTIPLE: nat := 0x40

  predicate HasRouting(h: MessageHeader, mask: byte) {
    && HasFlag(mask, ROUTING)
    && (h.senderNode != NODEID_ANY || h.receiverNode != NODEID_ANY || |h.senderName| > 0 || |h.receiverName| > 0)
  }

  predicate HasEndpoint(h: MessageHeader, mask: byte) {
    HasFlag(mask, ENDPOINT) && (h.senderEndpoint != 0 || h.receiverEndpoint != 0)
  }

  predicate HasPriority(h: MessageHeader, mask: byte) {
    HasFlag(mask, PRIORITY) && h.priority != 0
  }

  predicate HasMeta(h: MessageHeader, mask: byte) {
    HasFlag(mask, META) && (|h.metadata| > 0 || h.messageId != 0 || h.messageResId != 0)
  }

  predicate HasMultiple(h: MessageHeader, mask: byte) {
    HasFlag(mask, MULTIPLE) && h.entryCount != 1
  }

  function MessageFlags(h: MessageHeader, mask: byte): byte {
    FlagByte(HasRouting(h, mask), HasEndpoint(h, mask), HasPriority(h, mask), false, HasMeta(h, mask), false,
        HasMultiple(h, mask))
  }

  /** The size the writer predicts before it knows the width of its own length field. */
  function PredictedSize4(h: MessageHeader, mask: byte): nat {
    11
    + (if HasRouting(h, mask) then
         32 + UintXSize(|h.senderName|) + |h.senderName| + UintXSize(|h.receiverName|) + |h.receiverName|
       else 0)
    + (if HasEndpoint(h, mask) then UintXSize(h.senderEndpoint) + UintXSize(h.receiverEndpoint) else 0)
    + (if HasPriority(h, mask) then 2 else 0)
    + (if HasMeta(h, mask) then UintXSize(|h.metadata|) + |h.metadata| + 4 else 0)
    + (if HasMultiple(h, mask) then 5 else 0)
  }

  /** The header size including its own length field, or the range error. */
  function HeaderSize4(h: MessageHeader, mask: byte): Result<u32> {
    if PredictedSize4(h, mask) > U32_MAX then Err(OutOfRange)
    else
      var (total, _) :- LenPlusUintX(PredictedSize4(h, mask));
      Ok(total)
  }

  function RoutingBytes(h: MessageHeader, mask: byte): seq<byte> {
    if HasRouting(h, mask) then h.senderNode + h.receiverNode + StrX(h.senderName) + StrX(h.receiverName) else []
  }

  function EndpointBytes(h: MessageHeader, mask: byte): seq<byte> {
    if HasEndpoint(h, mask) then UintX(h.senderEndpoint) + UintX(h.receiverEndpoint) else []
  }

  function PriorityBytes(h: MessageHeader, mask: byte): seq<byte> {
    if HasPriority(h, mask) then LE16(h.priority) else []
  }

  function MetaBytes(h: MessageHeader, mask: byte): seq<byte> {
    if HasMeta(h, mask) then StrX(h.metadata) + LE16(h.messageId) + LE16(h.messageResId) else []
  }

  function MultipleBytes(h: MessageHeader, mask: byte, count: nat): seq<byte> {
    if HasMultiple(h, mask) then PaddedUintX(U32OfSize(count)) else []
  }

  function Header4Middle(h: MessageHeader, mask: byte): seq<byte>
    requires HeaderSize4(h, mask).Ok?
  {
    LE16(4) + UintX(HeaderSize4(h, mask).value) + [MessageFlags(h, mask)] + RoutingBytes(h, mask)
    + EndpointBytes(h, mask) + PriorityBytes(h, mask) + MetaBytes(h, mask)
  }

  function MessageHeader4Bytes(h: MessageHeader, mask: byte, size: nat, count: nat): seq<byte>
    requires HeaderSize4(h, mask).Ok?
  {
    RRAC + LE32(U32OfSize(size)) + Header4Middle(h, mask) + MultipleBytes(h, mask, count)
  }

  /** The predicted header size is exactly the number of bytes written, so the writer's
      internal consistency error cannot be returned. */
  lemma Header4SizeExact(h: MessageHeader, mask: byte, size: nat, count: nat)
    requires HeaderSize4(h, mask).Ok?
    ensures |MessageHeader4Bytes(h, mask, size, count)| == HeaderSize4(h, mask).value
  {
    hide HasFlag, FlagByte, UintX, UintXSize, LE16, LE32, PaddedUintX, StrX;
    SelfCounting(PredictedSize4(h, mask));
  }

  datatype RoutingInfo = RoutingInfo(sender: seq<byte>, receiver: seq<byte>, senderName: Span, receiverName: Span)

  function OptRouting(c: bool, s: seq<byte>, o: nat): Result<(RoutingInfo, nat)> {
    if c then
      var (sender, o1) :- ReadBytes(s, o, 16);
      var (receiver, o2) :- ReadBytes(s, o1, 16);
      var (senderName, o3) :- ReadStrX(s, o2);
      var (receiverName, o4) :- ReadStrX(s, o3);
      Ok((RoutingInfo(sender, receiver, senderName, receiverName), o4))
    else Ok((RoutingInfo(NODEID_ANY, NODEID_ANY, NO_SPAN, NO_SPAN), o))
  }

  function OptEndpoint(c: bool, s: seq<byte>, o: nat): Result<((u32, u32), nat)> {
    if c then
      var (sender, o1) :- ReadUintX(s, o);
      var (receiver, o2) :- ReadUintX(s, o1);
      Ok(((sender, receiver), o2))
    else Ok(((0, 0), o))
  }

  function OptMeta(c: bool, s: seq<byte>, o: nat): Result<((Span, u16, u16), nat)> {
    if c then
      var (metadata, o1) :- ReadStrX(s, o);
      var (id, o2) :- ReadU16(s, o1);
      var (resId, o3) :- ReadU16(s, o2);
      Ok(((metadata, id, resId), o3))
    else Ok(((NO_SPAN, 0, 0), o))
  }

  function OptEntryCount(c: bool, s: seq<byte>, o: nat): Result<(u32, nat)> {
    if c then ReadUintX(s, o) else Ok((1, o))
  }

  /** Message size, header size and flags. */
  function ParseFront4(s: seq<byte>, o0: nat): Result<((u32, u32, byte), nat)> {
    var (messageSize, o1) :- ReadU32(s, o0 + 4);
    var (version, o2) :- ReadU16(s, o1);
    if version != 4 then Err(Protocol)
    else
      var (headerSize, o3) :- ReadUintX(s, o2);
      var (flags, o4) :- ReadU8(s, o3);
      Ok(((messageSize, headerSize, flags), o4))
  }

  /** The field groups that flags switch on. */
  datatype Groups4 = Groups4(routing: RoutingInfo, endpoint: (u32, u32), priority: u16, meta: (Span, u16, u16))

  function ParseGroups4(s: seq<byte>, flags: byte, o4: nat): Result<(Groups4, nat)> {
    var (routing, o5) :- OptRouting(HasFlag(flags, ROUTING), s, o4);
    var (endpoint, o6) :- OptEndpoint(HasFlag(flags, ENDPOINT), s, o5);
    var (priority, o7) :- OptU16(HasFlag(flags, PRIORITY), s, o6);
    var (meta, o8) :- OptMeta(HasFlag(flags, META), s, o7);
    Ok((Groups4(routing, endpoint, priority, meta), o8))
  }

  function ParseMessage4(s: seq<byte>, o0: nat): Result<MessageInfo> {
    var ((messageSize, headerSize, flags), o4) :- ParseFront4(s, o0);
    var (g, o8) :- ParseGroups4(s, flags, o4);
    var (_, o9) :- OptSkip(HasFlag(flags, 0x20), s, o8);
    var (entryCount, o10) :- OptEntryCount(HasFlag(flags, MULTIPLE), s, o9);
    var (_, o11) :- OptSkip(HasFlag(flags, 0x80), s, o10);
    if o11 - o0 != headerSize then Err(Protocol)
    else Ok(MessageInfo(messageSize, headerSize, flags, g.routing.sender, g.routing.receiver, g.endpoint.0,
                        g.endpoint.1, g.priority, g.routing.senderName, g.routing.receiverName, g.meta.0, entryCount,
                        g.meta.1, g.meta.2, if HasFlag(flags, MULTIPLE) then Some(o9) else None, o11))
  }

  /** What a reader can see of a version 4 header: each field group that the mask
      removes is back at its default, everything else is as given. */
  function Visible4(h: MessageHeader, mask: byte, count: u32): MessageHeader {
    var h1 := if HasFlag(mask, ROUTING) then h
              else h.(senderNode := NODEID_ANY, receiverNode := NODEID_ANY, senderName := [], receiverName := []);
    var h2 := if HasFlag(mask, ENDPOINT) then h1 else h1.(senderEndpoint := 0, receiverEndpoint := 0);
    var h3 := if HasFlag(mask, PRIORITY) then h2 else h2.(priority := 0);
    var h4 := if HasFlag(mask, META) then h3 else h3.(metadata := [], messageId := 0, messageResId := 0);
    h4.(entryCount := if HasFlag(mask, MULTIPLE) && h.entryCount != 1 then count else 1)
  }

  lemma OptRoutingAt(s: seq<byte>, o: nat, h: MessageHeader, mask: byte, v: MessageHeader)
    requires At(s, o, RoutingBytes(h, mask))
    requires v == Visible4(h, mask, 0)
    ensures OptRouting(HasRouting(h, mask), s, o).Ok?
    ensures var (r, next) := OptRouting(HasRouting(h, mask), s, o).value;
            && next == o + |RoutingBytes(h, mask)|
            && r.sender == v.senderNode && r.receiver == v.receiverNode
            && Holds(s, r.senderName, v.senderName) && Holds(s, r.receiverName, v.receiverName)
  {
    hide At, ReadBytes, ReadStrX, StrX, HasFlag, UintXSize;
    if HasRouting(h, mask) {
      hide Holds;
      var a3 := h.senderNode + h.receiverNode + StrX(h.senderName);
      AtSplit(s, o, a3, StrX(h.receiverName));
      AtSplit3(s, o, h.senderNode, h.receiverNode, StrX(h.senderName));
      ReadBytesAt(s, o, h.senderNode);
      ReadBytesAt(s, o + 16, h.receiverNode);
      ReadStrXAt(s, o + 32, h.senderName);
      ReadStrXAt(s, o + |a3|, h.receiverName);
    }
  }

  lemma OptEndpointAt(s: seq<byte>, o: nat, h: MessageHeader, mask: byte, v: MessageHeader)
    requires At(s, o, EndpointBytes(h, mask))
    requires v == Visible4(h, mask, 0)
    ensures OptEndpoint(HasEndpoint(h, mask), s, o)
         == Ok(((v.senderEndpoint, v.receiverEndpoint), o + |EndpointBytes(h, mask)|))
  {
    hide ReadUintX, HasFlag;
    if HasEndpoint(h, mask) {
      AtSplit(s, o, UintX(h.senderEndpoint), UintX(h.receiverEndpoint));
      ReadUintXAt(s, o, h.senderEndpoint);
      ReadUintXAt(s, o + |UintX(h.senderEndpoint)|, h.receiverEndpoint);
    }
  }

  lemma OptPriorityAt(s: seq<byte>, o: nat, h: MessageHeader, mask: byte, v: MessageHeader)
    requires At(s, o, PriorityBytes(h, mask))
    requires v == Visible4(h, mask, 0)
    ensures OptU16(HasPriority(h, mask), s, o) == Ok((v.priority, o + |PriorityBytes(h, mask)|))
  {
    hide HasFlag;
    if HasPriority(h, mask) {
      ReadU16At(s, o, h.priority);
    }
  }

  lemma OptMetaAt(s: seq<byte>, o: nat, h: MessageHeader, mask: byte, v: MessageHeader)
    requires At(s, o, MetaBytes(h, mask))
    requires v == Visible4(h, mask, 0)
    ensures OptMeta(HasMeta(h, mask), s, o).Ok?
    ensures var (m, next) := OptMeta(HasMeta(h, mask), s, o).value;
            && next == o + |MetaBytes(h, mask)| && Holds(s, m.0, v.metadata)
            && m.1 == v.messageId && m.2 == v.messageResId
  {
    hide At, ReadU16, ReadStrX, StrX, LE16, HasFlag, UintXSize;
    if HasMeta(h, mask) {
      hide Holds;
      var a2 := StrX(h.metadata) + LE16(h.messageId);
      AtSplit(s, o, a2, LE16(h.messageResId));
      AtSplit(s, o, StrX(h.metadata), LE16(h.messageId));
      ReadStrXAt(s, o, h.metadata);
      ReadU16At(s, o + |StrX(h.metadata)|, h.messageId);
      ReadU16At(s, o + |a2|, h.messageResId);
    }
  }

  ghost predicate Message4Pieces(s: seq<byte>, o: nat, h: MessageHeader, mask: byte, size: nat, count: nat)
    requires HeaderSize4(h, mask).Ok?
  {
    var o3 := o + 10 + |UintX(HeaderSize4(h, mask).value)|;
    var o5 := o3 + 1 + |RoutingBytes(h, mask)|;
    var o6 := o5 + |EndpointBytes(h, mask)|;
    var o7 := o6 + |PriorityBytes(h, mask)|;
    var o8 := o7 + |MetaBytes(h, mask)|;
    && At(s, o, RRAC)
    && At(s, o + 4, LE32(U32OfSize(size)))
    && At(s, o + 8, LE16(4))
    && At(s, o + 10, UintX(HeaderSize4(h, mask).value))
    && At(s, o3, [MessageFlags(h, mask)])
    && At(s, o3 + 1, RoutingBytes(h, mask))
    && At(s, o5, EndpointBytes(h, mask))
    && At(s, o6, PriorityBytes(h, mask))
    && At(s, o7, MetaBytes(h, mask))
    && At(s, o8, MultipleBytes(h, mask, count))
    && o8 + |MultipleBytes(h, mask, count)| == o + |MessageHeader4Bytes(h, mask, size, count)|
  }

  lemma Message4Splits(s: seq<byte>, o: nat, h: MessageHeader, mask: byte, size: nat, count: nat)
    requires HeaderSize4(h, mask).Ok?
    requires At(s, o, MessageHeader4Bytes(h, mask, size, count))
    ensures Message4Pieces(s, o, h, mask, size, count)
  {
    hide At, LE16, LE32, UintX, MessageFlags, HasFlag, RoutingBytes, EndpointBytes, PriorityBytes, MetaBytes,
         MultipleBytes, HeaderSize4;
    var n := HeaderSize4(h, mask).value;
    var b1 := LE16(4) + UintX(n);
    var b2 := b1 + [MessageFlags(h, mask)];
    var b3 := b2 + RoutingBytes(h, mask);
    var b4 := b3 + EndpointBytes(h, mask);
    var b5 := b4 + PriorityBytes(h, mask);
    var a2 := RRAC + LE32(U32OfSize(size));
    AtSplit(s, o, a2 + Header4Middle(h, mask), MultipleBytes(h, mask, count));
    AtSplit(s, o, a2, Header4Middle(h, mask));
    AtSplit(s, o, RRAC, LE32(U32OfSize(size)));
    AtSplit(s, o + 8, b5, MetaBytes(h, mask));
    AtSplit(s, o + 8, b4, PriorityBytes(h, mask));
    AtSplit(s, o + 8, b3, EndpointBytes(h, mask));
    AtSplit(s, o + 8, b2, RoutingBytes(h, mask));
    AtSplit(s, o + 8, b1, [MessageFlags(h, mask)]);
    AtSplit(s, o + 8, LE16(4), UintX(n));
  }

  lemma MessageFlagsAre(h: MessageHeader, mask: byte)
    ensures var f := MessageFlags(h, mask);
            && HasFlag(f, ROUTING) == HasRouting(h, mask) && HasFlag(f, ENDPOINT) == HasEndpoint(h, mask)
            && HasFlag(f, PRIORITY) == HasPriority(h, mask) && HasFlag(f, META) == HasMeta(h, mask)
            && !HasFlag(f, 0x20) && HasFlag(f, MULTIPLE) == HasMultiple(h, mask) && !HasFlag(f, 0x80)
  {
    hide HasFlag, FlagByte, HasRouting, HasEndpoint, HasPriority, HasMeta, HasMultiple;
    FlagByteBits(HasRouting(h, mask), HasEndpoint(h, mask), HasPriority(h, mask), false, HasMeta(h, mask), false,
                 HasMultiple(h, mask));
  }

  lemma Front4Parses(s: seq<byte>, o: nat, size: u32, headerSize: u32, flags: byte)
    requires At(s, o + 4, LE32(size)) && At(s, o + 8, LE16(4)) && At(s, o + 10, UintX(headerSize))
    requires At(s, o + 10 + |UintX(headerSize)|, [flags])
    ensures ParseFront4(s, o) == Ok(((size, headerSize, flags), o + 11 + |UintX(headerSize)|))
  {
    hide At, ReadU8, ReadU16, ReadU32, ReadUintX, LE16, LE32, UintX;
    ReadU32At(s, o + 4, size);
    ReadU16At(s, o + 8, 4);
    ReadUintXAt(s, o + 10, headerSize);
    ReadU8At(s, o + 10 + |UintX(headerSize)|, flags);
  }

  lemma Groups4Parses(s: seq<byte>, o: nat, h: MessageHeader, mask: byte, v: MessageHeader)
    requires v == Visible4(h, mask, 0)
    requires var o6 := o + |RoutingBytes(h, mask)| + |EndpointBytes(h, mask)|;
             && At(s, o, RoutingBytes(h, mask)) && At(s, o + |RoutingBytes(h, mask)|, EndpointBytes(h, mask))
             && At(s, o6, PriorityBytes(h, mask)) && At(s, o6 + |PriorityBytes(h, mask)|, MetaBytes(h, mask))
    ensures ParseGroups4(s, MessageFlags(h, mask), o).Ok?
    ensures var (g, next) := ParseGroups4(s, MessageFlags(h, mask), o).value;
            && g.routing.sender == v.senderNode && g.routing.receiver == v.receiverNode
            && Holds(s, g.routing.senderName, v.senderName) && Holds(s, g.routing.receiverName, v.receiverName)
            && g.endpoint == (v.senderEndpoint, v.receiverEndpoint) && g.priority == v.priority
            && Holds(s, g.meta.0, v.metadata) && g.meta.1 == v.messageId && g.meta.2 == v.messageResId
            && next == o + |RoutingBytes(h, mask)| + |EndpointBytes(h, mask)| + |PriorityBytes(h, mask)|
                       + |MetaBytes(h, mask)|
  {
    hide At, Holds, OptRouting, OptEndpoint, OptU16, OptMeta, HasFlag, MessageFlags, HasRouting, HasEndpoint,
         HasPriority, HasMeta, RoutingBytes, EndpointBytes, PriorityBytes, MetaBytes, Visible4;
    MessageFlagsAre(h, mask);
    OptRoutingAt(s, o, h, mask, v);
    var o5 := o + |RoutingBytes(h, mask)|;
    OptEndpointAt(s, o5, h, mask, v);
    var o6 := o5 + |EndpointBytes(h, mask)|;
    OptPriorityAt(s, o6, h, mask, v);
    OptMetaAt(s, o6 + |PriorityBytes(h, mask)|, h, mask, v);
  }

  lemma EntryCountAt(s: seq<byte>, o: nat, h: MessageHeader, mask: byte, count: u32)
    requires At(s, o, MultipleBytes(h, mask, count))
    ensures OptEntryCount(HasMultiple(h, mask), s, o)
         == Ok((if HasMultiple(h, mask) then count else 1, o + |MultipleBytes(h, mask, count)|))
    ensures |MultipleBytes(h, mask, count)| == if HasMultiple(h, mask) then 5 else 0
  {
    U32Exact(count);
    hide At, HasMultiple, PaddedUintX, ReadUintX, U32OfSize;
    if HasMultiple(h, mask) {
      ReadPaddedAt(s, o, count);
    }
  }

  lemma VisibleCount4(h: MessageHeader, mask: byte, count: u32)
    ensures Visible4(h, mask, count)
         == Visible4(h, mask, 0).(entryCount := if HasMultiple(h, mask) then count else 1)
  {
    hide HasFlag;
  }

  /** Decoding a version 4 header gives back exactly its visible part. */
  lemma Message4Parses(s: seq<byte>, o: nat, h: MessageHeader, mask: byte, size: u32, count: u32)
    requires HeaderSize4(h, mask).Ok?
    requires At(s, o, MessageHeader4Bytes(h, mask, size, count))
    ensures ParseMessage4(s, o).Ok?
    ensures var info := ParseMessage4(s, o).value;
            var n := HeaderSize4(h, mask).value;
            && info.messageSize == size && info.headerSize == n && info.entryStart == o + n
            && info.entryCountOffset == (if HasMultiple(h, mask) then Some(o + n - 5) else None)
            && info.messageFlags == MessageFlags(h, mask)
            && MessageMatches(s, info, Visible4(h, mask, count))
  {
    hide At, Holds, ParseFront4, ParseGroups4, OptEntryCount, OptSkip, LE16, LE32, UintX, HasFlag, MessageFlags,
         HasMultiple, RoutingBytes, EndpointBytes, PriorityBytes, MetaBytes, MultipleBytes, MessageHeader4Bytes,
         HeaderSize4, Visible4, U32OfSize;
    U32Exact(size);
    MessageFlagsAre(h, mask);
    Message4Splits(s, o, h, mask, size, count);
    Header4SizeExact(h, mask, size, count);
    var n := HeaderSize4(h, mask).value;
    Front4Parses(s, o, size, n, MessageFlags(h, mask));
    var o4 := o + 11 + |UintX(n)|;
    Groups4Parses(s, o4, h, mask, Visible4(h, mask, 0));
    var o8 := ParseGroups4(s, MessageFlags(h, mask), o4).value.1;
    OptAbsent(s, o8);
    EntryCountAt(s, o8, h, mask, count);
    OptAbsent(s, o8 + |MultipleBytes(h, mask, count)|);
    VisibleCount4(h, mask, count);
  }

  /** Whatever stands there, no other version is read as version 4. */
  lemma OtherVersionRefused(s: seq<byte>, o: nat)
    requires o + 10 <= |s| && GetLE16(s[o + 8..o + 10]) != 4
    ensures ParseMessage4(s, o) == Err(Protocol)
  {
    hide GetLE16, GetLE32, ReadUintX, ReadU8, ParseGroups4, OptSkip, OptEntryCount;
  }

  /** On any bytes: a header that is read is as long as it says, in both versions. */
  lemma HeaderSizeChecked(s: seq<byte>, o: nat)
    ensures ParseMessage4(s, o).Ok? ==> ParseMessage4(s, o).value.headerSize == ParseMessage4(s, o).value.entryStart - o
    ensures ParseMessage2(s, o).Ok? ==> ParseMessage2(s, o).value.headerSize == ParseMessage2(s, o).value.entryStart - o
  {
    hide ReadU8, ReadU16, ReadU32, ReadUintX, ReadBytes, ReadStr2, OptU16, OptRouting, OptEndpoint, OptMeta,
         OptEntryCount, OptSkip, HasFlag, ParseGroups4;
  }
}
