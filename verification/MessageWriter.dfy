/** The message level of the writer, and whole messages written through the API. */
module MessageWriting {
  import opened Base
  import opened Headers
  import opened MessageHeaders
  import opened Tree
  import opened Emit
  import opened Writer

  class MessageWriter {
    var buf: array<byte>
    var ver: Version
    var offset: nat
    var messageSizeOffset: nat
    var entryCountOffset: Option<nat>

    constructor (b: array<byte>, v: Version)
      ensures buf == b && ver == v && offset == 0
    {
      buf, ver, offset, messageSizeOffset, entryCountOffset := b, v, 0, 0, None;
    }

    /** A begun message: its header with placeholders stands at offset, entries follow it. */
    ghost predicate Open(h: MessageHeader, mask: byte, entries: EntryWriter)
      reads this, buf, entries, entries.buf
    {
      && entries.Valid() && entries.buf == buf && entries.ver == ver
      && HeaderAccepted(ver, h, mask)
      && entries.base == offset + MessageHeaderSize(ver, h, mask)
      && messageSizeOffset == offset + 4
      && entryCountOffset == CountPatchOffset(ver, h, mask, entries.base)
      && At(buf[..], offset, MessageHeaderBytes(ver, h, mask, 0, h.entryCount))
    }

    /** Start a message; the header is refused exactly when it is out of range or does not
        fit. The header size is kept by the caller in the header. */
    method BeginMessage(h: MessageHeader, mask: byte, entries: EntryWriter) returns (rv: Status, headerSize: nat)
      requires offset <= buf.Length <= U32_MAX
      modifies this, entries, buf
      ensures buf == old(buf) && ver == old(ver) && offset == old(offset)
      ensures rv == Success <==> HeaderAccepted(ver, h, mask) && offset + MessageHeaderSize(ver, h, mask) <= buf.Length
      ensures rv == Success ==> Open(h, mask, entries) && entries.entries == []
      ensures rv == Success ==> headerSize == MessageHeaderSize(ver, h, mask)
      ensures rv == Success ==> AgreesOutside(old(buf[..]), buf[..], offset, entries.offset)
      ensures rv != Success ==> rv == OutOfRange && unchanged(this) && unchanged(entries)
      ensures KeepsBefore(old(buf[..]), buf[..], offset)
    {
      hide At, AgreesOutside, KeepsBefore, Wrote, HeaderAccepted, MessageHeaderBytes, MessageHeaderSize,
           CountPatchOffset, EncodeEntries;
      var o, countOffset;
      rv, o, countOffset := PutMessageHeader(ver, buf, offset, h, mask);
      headerSize := o - offset;
      if rv == Success {
        messageSizeOffset := offset + 4;
        entryCountOffset := countOffset;
        entries.Start(buf, ver, o);
      }
    }

    /** Finish the message: patch the total size and, where it has a place, the entry count.
        Without a place for it the count must be one; the size is already patched then. */
    method EndMessage(h: MessageHeader, mask: byte, headerSize: nat, entries: EntryWriter) returns (rv: Status,
            messageSize: nat)
      requires Open(h, mask, entries)
      requires headerSize == MessageHeaderSize(ver, h, mask)
      modifies buf
      ensures rv == Success <==> entryCountOffset.Some? || |entries.entries| == 1
      ensures rv != Success ==> rv == Protocol
      ensures rv == Success ==>
                && At(buf[..], offset, EncodeMessage(ver, mask, Message(h, entries.entries)))
                && messageSize == |EncodeMessage(ver, mask, Message(h, entries.entries))| == entries.offset - offset
      ensures AgreesOutside(old(buf[..]), buf[..], offset, entries.offset)
    {
      hide At, AgreesOutside, MessageHeaderBytes, EncodeEntries, EncodeMessage, LE32, HasMultiple, HeaderAccepted,
           MessageHeaderSize, HeaderMiddle, CountPart, CountPatched, CountPatchOffset;
      ghost var s0 := buf[..];
      AtFits(s0, entries.base, EncodeEntries(ver, entries.entries));
      MessageHeaderRoom(ver, h, mask);
      messageSize := entries.entriesWrittenSize + headerSize;
      if messageSize > U32_MAX {
        return OutOfRange, messageSize;
      }
      rv := Patch(buf, messageSizeOffset, LE32(messageSize));
      if rv != Success {
        return;
      }
      ghost var s1 := buf[..];
      AgreesWiden(s0, s1, messageSizeOffset, messageSizeOffset + 4, offset, entries.offset);
      rv := PatchEntryCount(ver, buf, entryCountOffset, entries.entriesWrittenCount, entries.base, h, mask);
      if rv == Success {
        PatchedMessage(ver, s0, s1, buf[..], offset, h, mask, entries.entries);
        CountPatchedAgrees(ver, h, mask, s1, buf[..], entries.base, |entries.entries|, offset, entries.offset);
        AgreesTrans(s0, s1, buf[..], offset, entries.offset, offset, entries.offset);
      }
    }
  }

  function CountPatchOffset(ver: Version, h: MessageHeader, mask: byte, headerEnd: nat): Option<nat>
    requires headerEnd >= 6
  {
    if ver == V2 then Some(headerEnd - 6) else if HasMultiple(h, mask) then Some(headerEnd - 4) else None
  }

  /** The part of a message header that holds the entry count, up to its end. */
  function CountPart(ver: Version, h: MessageHeader, mask: byte, count: nat): seq<byte> {
    if ver == V2 then LE16(U16OfSize(count)) + Header2Tail(h) else MultipleBytes(h, mask, count)
  }

  function HeaderMiddle(ver: Version, h: MessageHeader, mask: byte): seq<byte>
    requires HeaderAccepted(ver, h, mask)
  {
    if ver == V2 then Header2Middle(h) else Header4Middle(h, mask)
  }

  lemma MessageHeaderShape(ver: Version, h: MessageHeader, mask: byte, size: nat, count: nat)
    requires HeaderAccepted(ver, h, mask)
    ensures MessageHeaderBytes(ver, h, mask, size, count)
         == RRAC + LE32(U32OfSize(size)) + HeaderMiddle(ver, h, mask) + CountPart(ver, h, mask, count)
  {
    hide LE16, LE32, Header2Middle, Header4Middle, MultipleBytes, Header2Tail, HeaderSize4, Header2InRange;
    if ver == V2 {
      ConcatAssoc(RRAC + LE32(U32OfSize(size)) + Header2Middle(h), LE16(U16OfSize(count)), Header2Tail(h));
    }
  }

  lemma CountPartLength(ver: Version, h: MessageHeader, mask: byte, count: nat)
    ensures |CountPart(ver, h, mask, count)| == if ver == V2 then 6 else if HasMultiple(h, mask) then 5 else 0
  {
    hide LE16;
  }

  /** Every message header has room for the magic, the size and the count. */
  lemma MessageHeaderRoom(ver: Version, h: MessageHeader, mask: byte)
    requires HeaderAccepted(ver, h, mask)
    ensures MessageHeaderSize(ver, h, mask) == 8 + |HeaderMiddle(ver, h, mask)| + |CountPart(ver, h, mask, 0)|
    ensures MessageHeaderSize(ver, h, mask) >= 12
  {
    MessageHeaderLength(ver, h, mask, 0, 0);
    MessageHeaderShape(ver, h, mask, 0, 0);
    hide LE32, HeaderMiddle, CountPart, MessageHeaderBytes;
  }

  /** write_header2_ex or write_header4_ex, by version. */
  method PutMessageHeader(ver: Version, buf: array<byte>, o0: nat, h: MessageHeader, mask: byte)
    returns (rv: Status, o: nat, countOffset: Option<nat>)
    requires o0 <= buf.Length
    modifies buf
    ensures rv == Success || rv == OutOfRange
    ensures rv == Success <==> HeaderAccepted(ver, h, mask) && o0 + MessageHeaderSize(ver, h, mask) <= buf.Length
    ensures rv == Success ==>
              && o == o0 + MessageHeaderSize(ver, h, mask) <= buf.Length && o >= o0 + 12
              && At(buf[..], o0, MessageHeaderBytes(ver, h, mask, 0, h.entryCount))
              && countOffset == CountPatchOffset(ver, h, mask, o)
              && AgreesOutside(old(buf[..]), buf[..], o0, o)
    ensures KeepsBefore(old(buf[..]), buf[..], o0)
    ensures o >= o0
  {
    hide At, AgreesOutside, KeepsBefore, Wrote, Header2InRange, HeaderSize2, HeaderSize4, MessageHeader2Bytes,
         MessageHeader4Bytes, HasMultiple;
    ghost var s0 := buf[..];
    if ver == V2 {
      var at;
      rv, o, at := PutMessageHeader2(buf, o0, h);
      countOffset := Some(at);
    } else {
      rv, o, countOffset := PutMessageHeader4(buf, o0, h, mask);
    }
    if HeaderAccepted(ver, h, mask) {
      MessageHeaderLength(ver, h, mask, 0, h.entryCount);
      MessageHeaderRoom(ver, h, mask);
      Begun(s0, buf[..], o0, [], o0, MessageHeaderBytes(ver, h, mask, 0, h.entryCount), rv == Success, o);
    }
    if rv != Success {
      o := o0;
    }
  }

  /** From s to t the entry count at the end of the header changed to the given one, or it has no place. */
  ghost predicate CountPatched(ver: Version, h: MessageHeader, mask: byte, s: seq<byte>, t: seq<byte>,
          headerEnd: nat, count: nat)
    requires headerEnd >= 6
  {
    if ver == V2 then
      AgreesOutside(s, t, headerEnd - 6, headerEnd - 4) && At(t, headerEnd - 6, LE16(U16OfSize(count)))
    else if HasMultiple(h, mask) then
      AgreesOutside(s, t, headerEnd - 4, headerEnd) && At(t, headerEnd - 4, LE32(U32OfSize(count)))
    else s == t
  }

  method PatchEntryCount(ver: Version, buf: array<byte>, at: Option<nat>, count: nat, ghost headerEnd: nat,
          ghost h: MessageHeader, ghost mask: byte) returns (rv: Status)
    requires 6 <= headerEnd <= buf.Length && at == CountPatchOffset(ver, h, mask, headerEnd)
    modifies buf
    ensures rv == Success <==> at.Some? || count == 1
    ensures rv == Success ==> CountPatched(ver, h, mask, old(buf[..]), buf[..], headerEnd, count)
    ensures rv != Success ==> rv == Protocol && buf[..] == old(buf[..])
  {
    hide At, AgreesOutside, LE16, LE32, HasMultiple;
    match at {
      case None =>
        rv := if count == 1 then Success else Protocol;
      case Some(offset) =>
        if ver == V2 {
          rv := Patch(buf, offset, LE16(U16OfSize(count)));
        } else {
          rv := Patch(buf, offset, LE32(U32OfSize(count)));
        }
    }
  }

  lemma PatchedCountPart(ver: Version, h: MessageHeader, mask: byte, s: seq<byte>, t: seq<byte>, o: nat, c0: nat,
          c: nat)
    requires At(s, o, CountPart(ver, h, mask, c0))
    requires var e := o + |CountPart(ver, h, mask, c0)|; e >= 6 && CountPatched(ver, h, mask, s, t, e, c)
    ensures At(t, o, CountPart(ver, h, mask, c))
  {
    if ver == V2 {
      hide At, AgreesOutside, LE16;
      AtSplit(s, o, LE16(U16OfSize(c0)), Header2Tail(h));
      AtOutside(s, t, o, o + 2, o + 2, Header2Tail(h));
      AtJoin(t, o, LE16(U16OfSize(c)), Header2Tail(h));
    } else if HasMultiple(h, mask) {
      hide At, AgreesOutside, LE32;
      AtSplit(s, o, [254], LE32(U32OfSize(c0)));
      AtOutside(s, t, o + 1, o + 5, o, [254]);
      AtJoin(t, o, [254], LE32(U32OfSize(c)));
    }
  }

  /** Patching the entry count leaves everything but its own field alone. */
  lemma CountPatchedKeeps(ver: Version, h: MessageHeader, mask: byte, s: seq<byte>, t: seq<byte>, headerEnd: nat,
          count: nat, o: nat, p: seq<byte>)
    requires headerEnd >= 6 && CountPatched(ver, h, mask, s, t, headerEnd, count)
    requires At(s, o, p)
    requires o + |p| <= headerEnd - |CountPart(ver, h, mask, count)| || headerEnd <= o
    ensures At(t, o, p)
  {
    hide At, AgreesOutside, LE16, LE32;
    CountPartLength(ver, h, mask, count);
    if ver == V2 {
      AtOutside(s, t, headerEnd - 6, headerEnd - 4, o, p);
    } else if HasMultiple(h, mask) {
      AtOutside(s, t, headerEnd - 4, headerEnd, o, p);
    }
  }

  lemma CountPatchedAgrees(ver: Version, h: MessageHeader, mask: byte, s: seq<byte>, t: seq<byte>, headerEnd: nat,
          count: nat, lo: nat, hi: nat)
    requires headerEnd >= 6 && CountPatched(ver, h, mask, s, t, headerEnd, count)
    requires lo + 6 <= headerEnd <= hi <= |s|
    ensures AgreesOutside(s, t, lo, hi)
  {
    if ver == V2 {
      AgreesWiden(s, t, headerEnd - 6, headerEnd - 4, lo, hi);
    } else if HasMultiple(h, mask) {
      AgreesWiden(s, t, headerEnd - 4, headerEnd, lo, hi);
    }
  }

  /** After both patches the whole message stands at o. */
  lemma PatchedMessage(ver: Version, s0: seq<byte>, s1: seq<byte>, s2: seq<byte>, o: nat, h: MessageHeader,
          mask: byte, es: seq<Entry>)
    requires HeaderAccepted(ver, h, mask)
    requires At(s0, o, MessageHeaderBytes(ver, h, mask, 0, h.entryCount))
    requires At(s0, o + MessageHeaderSize(ver, h, mask), EncodeEntries(ver, es))
    requires AgreesOutside(s0, s1, o + 4, o + 8)
    requires At(s1, o + 4, LE32(U32OfSize(MessageHeaderSize(ver, h, mask) + |EncodeEntries(ver, es)|)))
    requires o + MessageHeaderSize(ver, h, mask) >= 6
        && CountPatched(ver, h, mask, s1, s2, o + MessageHeaderSize(ver, h, mask), |es|)
    ensures At(s2, o, EncodeMessage(ver, mask, Message(h, es)))
    ensures |EncodeMessage(ver, mask, Message(h, es))| == MessageHeaderSize(ver, h, mask) + |EncodeEntries(ver, es)|
  {
    hide At, AgreesOutside, MessageHeaderBytes, MessageHeaderSize, HeaderAccepted, EncodeEntries, LE32, HeaderMiddle,
         CountPart, CountPatched;
    var body := EncodeEntries(ver, es);
    var e := o + MessageHeaderSize(ver, h, mask);
    var n := MessageHeaderSize(ver, h, mask) + |body|;
    var mid := HeaderMiddle(ver, h, mask);
    MessageHeaderRoom(ver, h, mask);
    MessageHeaderLength(ver, h, mask, n, |es|);
    CountPartLength(ver, h, mask, 0);
    CountPartLength(ver, h, mask, h.entryCount);
    CountPartLength(ver, h, mask, |es|);
    MessageHeaderShape(ver, h, mask, 0, h.entryCount);
    MessageHeaderShape(ver, h, mask, n, |es|);
    var m := o + 8 + |mid|;
    SplitHeader(s0, o, LE32(0), mid, CountPart(ver, h, mask, h.entryCount));
    AtOutside(s0, s1, o + 4, o + 8, o, RRAC);
    AtOutside(s0, s1, o + 4, o + 8, o + 8, mid);
    AtOutside(s0, s1, o + 4, o + 8, m, CountPart(ver, h, mask, h.entryCount));
    AtOutside(s0, s1, o + 4, o + 8, e, body);
    CountPatchedKeeps(ver, h, mask, s1, s2, e, |es|, o, RRAC);
    CountPatchedKeeps(ver, h, mask, s1, s2, e, |es|, o + 4, LE32(U32OfSize(n)));
    CountPatchedKeeps(ver, h, mask, s1, s2, e, |es|, o + 8, mid);
    CountPatchedKeeps(ver, h, mask, s1, s2, e, |es|, e, body);
    PatchedCountPart(ver, h, mask, s1, s2, m, h.entryCount, |es|);
    JoinHeader(s2, o, LE32(U32OfSize(n)), mid, CountPart(ver, h, mask, |es|), body);
  }

  lemma SplitHeader(s: seq<byte>, o: nat, size: seq<byte>, mid: seq<byte>, count: seq<byte>)
    requires |size| == 4 && At(s, o, RRAC + size + mid + count)
    ensures At(s, o, RRAC) && At(s, o + 4, size) && At(s, o + 8, mid) && At(s, o + 8 + |mid|, count)
  {
    hide At;
    AtSplit(s, o, RRAC + size + mid, count);
    AtSplit3(s, o, RRAC, size, mid);
  }

  lemma JoinHeader(s: seq<byte>, o: nat, size: seq<byte>, mid: seq<byte>, count: seq<byte>, body: seq<byte>)
    requires |size| == 4
    requires At(s, o, RRAC) && At(s, o + 4, size) && At(s, o + 8, mid) && At(s, o + 8 + |mid|, count)
    requires At(s, o + 8 + |mid| + |count|, body)
    ensures At(s, o, RRAC + size + mid + count + body)
  {
    hide At;
    AtJoin(s, o, RRAC, size);
    AtJoin(s, o, RRAC + size, mid);
    AtJoin(s, o, RRAC + size + mid, count);
    AtJoin(s, o, RRAC + size + mid + count, body);
  }
}
