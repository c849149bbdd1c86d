/** Whole messages written through the begin/end API: every well-nested sequence of calls
    is the traversal of a tree, and what it leaves in the buffer is the tree's encoding. */
module WholeMessage {
  import opened Base
  import opened Headers
  import opened MessageHeaders
  import opened Tree
  import opened Emit
  import opened Writer
  import opened MessageWriting

  /** Raw data is a whole number of positive-size items. */
  predicate Shaped(e: Element) {
    match e
    case Raw(_, _, count, data) => if count == 0 then data == [] else data != [] && |data| % count == 0
    case Nested(_, children) => forall c | c in children :: Shaped(c)
  }

  predicate ElementInRange(ver: Version, e: Element) {
    match e
    case Raw(name, _, count, data) => RawInRange(ver, name, count, |data|)
    case Nested(_, children) => forall c | c in children :: ElementInRange(ver, c)
  }

  lemma ElementAtLeast(ver: Version, e: Element)
    ensures |EncodeElement(ver, e)| >= 2
  {
    match e
    case Raw(name, dataType, count, data) =>
    case Nested(h, children) =>
      HeaderRoom(ver, h);
      NestedLength(ver, h, children);
  }

  lemma {:induction false} ElementsAtLeast(ver: Version, es: seq<Element>)
    ensures |EncodeElements(ver, es)| >= 2 * |es|
  {
    hide EncodeElement;
    if es != [] {
      ElementAtLeast(ver, es[0]);
      ElementsAtLeast(ver, es[1..]);
    }
  }

  lemma KeepsTrans(s: seq<byte>, t: seq<byte>, u: seq<byte>, lo: nat, mid: nat, hi: nat)
    requires AgreesOutside(s, t, lo, mid)
    requires KeepsBefore(t, u, hi) && lo <= hi
    ensures KeepsBefore(s, u, lo)
  {
    assert u[..lo] == u[..hi][..lo] == t[..hi][..lo] == t[..lo];
  }

  lemma AgreesGrow(s: seq<byte>, t: seq<byte>, u: seq<byte>, lo: nat, mid: nat, hi: nat)
    requires AgreesOutside(s, t, lo, mid)
    requires AgreesOutside(t, u, mid, hi)
    ensures AgreesOutside(s, u, lo, hi)
  {
    AgreesWiden(s, t, lo, mid, lo, hi);
    AgreesWiden(t, u, mid, hi, lo, hi);
    AgreesTrans(s, t, u, lo, hi, lo, hi);
  }

  lemma AgreesRefl(s: seq<byte>, o: nat)
    requires o <= |s|
    ensures AgreesOutside(s, s, o, o)
  {
  }

  /** One element of any depth: it is accepted exactly when it is in range and its encoding
      fits; whatever happens, the writer's invariant holds afterwards. */
  method WriteElement(w: ElementWriter, e: Element) returns (rv: Status)
    requires w.Valid() && Shaped(e)
    modifies w, w.buf
    ensures w.Valid() && w.buf == old(w.buf) && w.ver == old(w.ver) && w.base == old(w.base)
    ensures rv == Success <==> ElementInRange(w.ver, e) && old(w.offset) + |EncodeElement(w.ver, e)| <= w.buf.Length
    ensures rv == Success ==> w.elems == old(w.elems) + [e] && w.offset == old(w.offset) + |EncodeElement(w.ver, e)|
    ensures rv == Success ==> AgreesOutside(old(w.buf[..]), w.buf[..], old(w.offset), w.offset)
    ensures rv != Success ==> w.elems == old(w.elems) && w.offset == old(w.offset)
    ensures rv != Success ==> KeepsBefore(old(w.buf[..]), w.buf[..], w.offset)
    decreases e, 2
  {
    hide At, AgreesOutside, KeepsBefore, EncodeElement, EncodeElements, RawInRange, RawTotal;
    match e
    case Raw(name, dataType, count, data) =>
      RawBytes(w.ver, name, dataType, count, data);
      ElementsAtLeast(w.ver, w.elems);
      AtFits(w.buf[..], w.base, EncodeElements(w.ver, w.elems));
      rv := w.WriteRaw(name, data, count, dataType, if count == 0 then 1 else |data| / count);
    case Nested(h, children) =>
      rv := WriteNested(w, h, children);
  }

  method WriteNested(w: ElementWriter, h: ElementHeader, children: seq<Element>) returns (rv: Status)
    requires w.Valid() && forall c | c in children :: Shaped(c)
    modifies w, w.buf
    ensures w.Valid() && w.buf == old(w.buf) && w.ver == old(w.ver) && w.base == old(w.base)
    ensures rv == Success <==>
              && (forall c | c in children :: ElementInRange(w.ver, c))
              && old(w.offset) + |EncodeElement(w.ver, Nested(h, children))| <= w.buf.Length
    ensures rv == Success ==>
              && w.elems == old(w.elems) + [Nested(h, children)]
              && w.offset == old(w.offset) + |EncodeElement(w.ver, Nested(h, children))|
    ensures rv == Success ==> AgreesOutside(old(w.buf[..]), w.buf[..], old(w.offset), w.offset)
    ensures rv != Success ==> w.elems == old(w.elems) && w.offset == old(w.offset)
    ensures rv != Success ==> KeepsBefore(old(w.buf[..]), w.buf[..], w.offset)
    decreases children, 1
  {
    hide At, AgreesOutside, KeepsBefore, EncodeElement, EncodeElements, NestedHeaderBytes, Shaped, ElementInRange;
    ghost var s0, o0, done := w.buf[..], w.offset, EncodeElements(w.ver, w.elems);
    ElementsAtLeast(w.ver, w.elems);
    AtFits(s0, w.base, done);
    NestedLength(w.ver, h, children);
    EncodeNone(w.ver);
    assert [] + children == children;
    var nested := new ElementWriter();
    rv := w.BeginNestedElement(h, nested);
    if rv != Success {
      return;
    }
    ghost var s1, start := w.buf[..], nested.offset;
    rv := WriteElements(nested, children);
    if rv != Success {
      KeptAt(s1, w.buf[..], start, w.base, done);
      KeepsTrans(s0, s1, w.buf[..], o0, start, start);
      return;
    }
    StaysOpen(s0, s1, w.buf[..], o0, start, nested.offset, w.base, done, NestedHeaderBytes(w.ver, h, 0, 0));
    ghost var s2 := w.buf[..];
    rv := w.EndNestedElement(h, nested);
    AgreesTrans(s0, s2, w.buf[..], o0, w.offset, o0, w.offset);
  }

  /** Writing behind a begun header disturbs neither the header nor what stands before it. */
  lemma StaysOpen(s0: seq<byte>, s1: seq<byte>, s2: seq<byte>, o: nat, start: nat, end: nat, base: nat,
          done: seq<byte>, header: seq<byte>)
    requires AgreesOutside(s0, s1, o, start) && AgreesOutside(s1, s2, start, end)
    requires At(s1, base, done) && base + |done| == o
    requires At(s1, o, header) && start == o + |header|
    ensures At(s2, base, done) && At(s2, o, header)
    ensures AgreesOutside(s0, s2, o, end)
  {
    hide At, AgreesOutside;
    AtOutside(s1, s2, start, end, base, done);
    AtOutside(s1, s2, start, end, o, header);
    AgreesGrow(s0, s1, s2, o, start, end);
  }

  lemma RawBytes(ver: Version, name: text, dataType: u16, count: u32, data: text)
    ensures RawInRange(ver, name, count, |data|) ==>
              |EncodeElement(ver, Raw(name, dataType, count, data))| == RawTotal(ver, |name|, count, |data|)
  {
    if RawInRange(ver, name, count, |data|) {
      RawLength(ver, name, dataType, count, data);
    }
  }

  /** A sequence of elements; on failure the ones before the refused one are in the buffer. */
  method WriteElements(w: ElementWriter, es: seq<Element>) returns (rv: Status)
    requires w.Valid() && forall e | e in es :: Shaped(e)
    modifies w, w.buf
    ensures w.Valid() && w.buf == old(w.buf) && w.ver == old(w.ver) && w.base == old(w.base)
    ensures rv == Success <==>
              && (forall e | e in es :: ElementInRange(w.ver, e))
              && old(w.offset) + |EncodeElements(w.ver, es)| <= w.buf.Length
    ensures rv == Success ==> w.elems == old(w.elems) + es && w.offset == old(w.offset) + |EncodeElements(w.ver, es)|
    ensures rv == Success ==> AgreesOutside(old(w.buf[..]), w.buf[..], old(w.offset), w.offset)
    ensures rv != Success ==> KeepsBefore(old(w.buf[..]), w.buf[..], old(w.offset))
    ensures rv != Success ==> exists k :: 0 <= k < |es| && w.elems == old(w.elems) + es[..k]
    decreases es, 0
  {
    hide *;
    EncodeNone(w.ver);
    ghost var s0, o0 := w.buf[..], w.offset;
    w.ValidFits();
    if es == [] {
      AgreesRefl(s0, o0);
      return Success;
    }
    EncodeElementsCons(w.ver, es);
    assert es == [es[0]] + es[1..];
    rv := WriteElement(w, es[0]);
    if rv != Success {
      assert w.elems == old(w.elems) + es[..0];
      return;
    }
    ghost var s1, o1 := w.buf[..], w.offset;
    rv := WriteElements(w, es[1..]);
    if rv == Success {
      AgreesGrow(s0, s1, w.buf[..], o0, o1, w.offset);
      assert old(w.elems) + [es[0]] + es[1..] == old(w.elems) + es;
    } else {
      KeepsTrans(s0, s1, w.buf[..], o0, o1, o1);
      ghost var k :| 0 <= k < |es[1..]| && w.elems == old(w.elems) + [es[0]] + es[1..][..k];
      assert old(w.elems) + [es[0]] + es[1..][..k] == old(w.elems) + es[..k + 1];
    }
  }

  // ---- entries and messages ----

  predicate EntryShaped(e: Entry) {
    forall c | c in e.elements :: Shaped(c)
  }

  predicate EntryInRange(ver: Version, e: Entry) {
    forall c | c in e.elements :: ElementInRange(ver, c)
  }

  /** One entry: accepted exactly when fewer than 65535 are in, its elements are in range and it fits. */
  method WriteEntry(w: EntryWriter, e: Entry) returns (rv: Status)
    requires w.Valid() && EntryShaped(e)
    modifies w, w.buf
    ensures w.Valid() && w.buf == old(w.buf) && w.ver == old(w.ver) && w.base == old(w.base)
    ensures rv == Success <==>
              && |old(w.entries)| < U16_MAX && EntryInRange(w.ver, e)
              && old(w.offset) + |EncodeEntry(w.ver, e)| <= w.buf.Length
    ensures rv == Success ==> w.entries == old(w.entries) + [e] && w.offset == old(w.offset) + |EncodeEntry(w.ver, e)|
    ensures rv == Success ==> AgreesOutside(old(w.buf[..]), w.buf[..], old(w.offset), w.offset)
    ensures rv != Success ==> w.entries == old(w.entries) && w.offset == old(w.offset)
    ensures rv != Success ==> KeepsBefore(old(w.buf[..]), w.buf[..], w.offset)
  {
    hide At, AgreesOutside, KeepsBefore, EncodeEntry, EncodeEntries, EncodeElements, EntryHeaderBytes, Shaped,
         ElementInRange;
    ghost var s0, o0, done := w.buf[..], w.offset, EncodeEntries(w.ver, w.entries);
    AtFits(s0, w.base, done);
    EntryLength(w.ver, e);
    EncodeNone(w.ver);
    assert [] + e.elements == e.elements;
    var elements := new ElementWriter();
    rv := w.BeginEntry(e.header, elements);
    if rv != Success {
      return;
    }
    ghost var s1, start := w.buf[..], elements.offset;
    rv := WriteElements(elements, e.elements);
    if rv != Success {
      KeptAt(s1, w.buf[..], start, w.base, done);
      KeepsTrans(s0, s1, w.buf[..], o0, start, start);
      return;
    }
    StaysOpen(s0, s1, w.buf[..], o0, start, elements.offset, w.base, done, EntryHeaderBytes(w.ver, e.header, 0, 0));
    ghost var s2 := w.buf[..];
    rv := w.EndEntry(e.header, elements);
    AgreesTrans(s0, s2, w.buf[..], o0, w.offset, o0, w.offset);
  }

  method WriteEntries(w: EntryWriter, es: seq<Entry>) returns (rv: Status)
    requires w.Valid() && forall e | e in es :: EntryShaped(e)
    modifies w, w.buf
    ensures w.Valid() && w.buf == old(w.buf) && w.ver == old(w.ver) && w.base == old(w.base)
    ensures rv == Success <==>
              && (es == [] || |old(w.entries)| + |es| <= U16_MAX) && (forall e | e in es :: EntryInRange(w.ver, e))
              && old(w.offset) + |EncodeEntries(w.ver, es)| <= w.buf.Length
    ensures rv == Success ==> w.entries == old(w.entries) + es && w.offset == old(w.offset) + |EncodeEntries(w.ver, es)|
    ensures rv == Success ==> AgreesOutside(old(w.buf[..]), w.buf[..], old(w.offset), w.offset)
    ensures rv != Success ==> KeepsBefore(old(w.buf[..]), w.buf[..], old(w.offset))
  {
    hide *;
    EncodeNone(w.ver);
    ghost var s0, o0 := w.buf[..], w.offset;
    w.ValidFits();
    if es == [] {
      AgreesRefl(s0, o0);
      return Success;
    }
    EncodeEntriesCons(w.ver, es);
    assert es == [es[0]] + es[1..];
    rv := WriteEntry(w, es[0]);
    if rv != Success {
      return;
    }
    ghost var s1, o1 := w.buf[..], w.offset;
    rv := WriteEntries(w, es[1..]);
    if rv == Success {
      AgreesGrow(s0, s1, w.buf[..], o0, o1, w.offset);
      assert old(w.entries) + [es[0]] + es[1..] == old(w.entries) + es;
    } else {
      KeepsTrans(s0, s1, w.buf[..], o0, o1, o1);
    }
  }

  /** The messages that the API can produce in a buffer of the given capacity. */
  predicate MessageAccepted(ver: Version, mask: byte, m: Message, capacity: nat) {
    && HeaderAccepted(ver, m.header, mask)
    && |m.entries| <= U16_MAX
    && (forall e | e in m.entries :: EntryInRange(ver, e))
    && |EncodeMessage(ver, mask, m)| <= capacity
    && (ver == V4 && !HasMultiple(m.header, mask) ==> |m.entries| == 1)
  }

  /** Refinement: the begin/end calls for a whole message succeed exactly when it can be
      produced, the buffer then starts with its encoding, and the reported message size is
      the number of bytes written, which is the header size plus the sum of the entries. */
  method WriteMessage(buf: array<byte>, ver: Version, mask: byte, m: Message) returns (rv: Status, messageSize: nat)
    requires buf.Length <= U32_MAX
    requires forall e | e in m.entries :: EntryShaped(e)
    modifies buf
    ensures rv == Success <==> MessageAccepted(ver, mask, m, buf.Length)
    ensures rv == Success ==>
              && At(buf[..], 0, EncodeMessage(ver, mask, m))
              && messageSize == |EncodeMessage(ver, mask, m)|
              && messageSize == MessageHeaderSize(ver, m.header, mask) + SumOfEntries(ver, m.entries)
              && AgreesOutside(old(buf[..]), buf[..], 0, messageSize)
  {
    hide At, AgreesOutside, KeepsBefore, EncodeEntries, EncodeMessage, MessageHeaderBytes, MessageHeaderSize,
         HeaderAccepted, EntryShaped, EntryInRange, HasMultiple, SumOfEntries;
    var w := new MessageWriter(buf, ver);
    var entries := new EntryWriter();
    messageSize := 0;
    ghost var s0 := buf[..];
    var headerSize;
    EncodeNone(ver);
    if HeaderAccepted(ver, m.header, mask) {
      MessageLength(ver, mask, m);
      MessageSizes(ver, mask, m);
    }
    rv, headerSize := w.BeginMessage(m.header, mask, entries);
    if rv != Success {
      return;
    }
    assert [] + m.entries == m.entries;
    ghost var s1, start := buf[..], entries.offset;
    rv := WriteEntries(entries, m.entries);
    if rv != Success {
      return;
    }
    AtOutside(s1, buf[..], start, entries.offset, 0, MessageHeaderBytes(ver, m.header, mask, 0, m.header.entryCount));
    AtFits(buf[..], entries.base, EncodeEntries(ver, m.entries));
    ghost var s2, end := buf[..], entries.offset;
    AgreesGrow(s0, s1, s2, 0, start, end);
    rv, messageSize := w.EndMessage(m.header, mask, headerSize, entries);
    AgreesTrans(s0, s2, buf[..], 0, end, 0, end);
  }

  lemma MessageSizes(ver: Version, mask: byte, m: Message)
    requires HeaderAccepted(ver, m.header, mask)
    ensures |EncodeMessage(ver, mask, m)| == MessageHeaderSize(ver, m.header, mask) + |EncodeEntries(ver, m.entries)|
    ensures |MessageHeaderBytes(ver, m.header, mask, 0, m.header.entryCount)| == MessageHeaderSize(ver, m.header, mask)
  {
    hide MessageHeaderBytes, MessageHeaderSize, EncodeEntries, HeaderAccepted;
    MessageHeaderLength(ver, m.header, mask, MessageHeaderSize(ver, m.header, mask) + |EncodeEntries(ver, m.entries)|,
        |m.entries|);
    MessageHeaderLength(ver, m.header, mask, 0, m.header.entryCount);
  }
}
