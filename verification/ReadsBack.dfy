/** The exact condition of the round trip, over every message the writer accepts: which trees
    come back, and what the reader meets behind a message that has no entries. */
module ReadsBack {
  import opened Base
  import opened Wire
  import opened Headers
  import opened MessageHeaders
  import opened Tree
  import opened Cursor
  import opened WholeMessage
  import opened RoundTrip

  // ---- messages without entries ----

  /** What begin_read_entries makes of the bytes at o, where no entry was written. */
  function EntriesBehind(s: seq<byte>, n: nat, ver: Version, o: nat): Result<EntryCursor>
    requires o >= CountPlace(ver)
  {
    var (size, _) :- ReadCount(ver, s, o);
    if o + size > n then Err(Protocol) else Ok(EntryCursor(ver, o, size, n - o - size, Some(o - CountPlace(ver)), 0))
  }

  lemma EntriesFromHeader(s: seq<byte>, n: nat, ver: Version)
    requires ParseMessage(s).Ok? && ParseMessage(s).value.1.entryCountOffset.Some?
    requires var info := ParseMessage(s).value.1; info.entryCountOffset.value + CountPlace(ver) == info.headerSize
    ensures BeginEntries(s, n, ver) == EntriesBehind(s, n, ver, ParseMessage(s).value.1.headerSize)
  {
    hide ParseMessage, ReadCount;
  }

  /** An empty message has its count field, and the field says so. */
  lemma CountedNone(ver: Version, mask: byte, m: Message, s: seq<byte>)
    requires HeaderAccepted(ver, m.header, mask) && m.entries == [] && HeaderRead(ver, mask, m, s)
    ensures ParseMessage(s).Ok?
    ensures var info := ParseMessage(s).value.1;
            && info.entryCountOffset.Some? && info.entryCountOffset.value + CountPlace(ver) == info.headerSize
            && info.headerSize == MessageHeaderSize(ver, m.header, mask)
            && MessageMatches(s, info, Visible(ver, mask, m))
            && ReadCount2(ver, s, info.entryCountOffset.value).Ok?
            && ReadCount2(ver, s, info.entryCountOffset.value).value.0 == 0
  {
    hide ParseMessage, MessageMatches, HeaderAccepted, MessageHeaderSize, Visible, ReadCount2;
  }

  lemma EmptyLength(ver: Version, mask: byte, m: Message)
    requires HeaderAccepted(ver, m.header, mask) && m.entries == []
    ensures |EncodeMessage(ver, mask, m)| == MessageHeaderSize(ver, m.header, mask)
  {
    hide HeaderAccepted, MessageHeaderSize, EncodeEntry;
    MessageSizes(ver, mask, m);
  }

  lemma NoneCounted(s: seq<byte>, c: EntryCursor)
    requires c.countOffset.Some? && c.current == 0
    requires var r := ReadCount2(c.ver, s, c.countOffset.value); r.Ok? && r.value.0 == 0
    ensures EntryNext(s, c) == Err(NoMore)
  {
    hide ReadCount, ReadCount2;
  }

  /** A message without entries, in both versions: its header is read and reports no entries,
      but the entry reader starts on whatever stands behind the message, and on that once. */
  lemma EmptyMessageReads(ver: Version, mask: byte, m: Message, s: seq<byte>, n: nat)
    requires MessageAccepted(ver, mask, m, U32_MAX) && m.entries == []
    requires At(s, 0, EncodeMessage(ver, mask, m)) && |EncodeMessage(ver, mask, m)| <= n <= |s|
    ensures CheckMessage(s, n) == Success && ParseMessage(s).Ok?
    ensures MessageMatches(s, ParseMessage(s).value.1, Visible(ver, mask, m))
    ensures ParseMessage(s).value.1.entryCount == 0
    ensures |EncodeMessage(ver, mask, m)| >= 10
    ensures BeginEntries(s, n, ver) == EntriesBehind(s, n, ver, |EncodeMessage(ver, mask, m)|)
    ensures BeginEntries(s, n, ver).Ok? ==> EntryNext(s, BeginEntries(s, n, ver).value) == Err(NoMore)
  {
    hide At, EncodeEntries, EncodeMessage, EntryInRange, ParseMessage, HeaderAccepted, MessageHeaderSize, CheckMessage,
         BeginEntries, HeaderRead, EntryNext, ReadCount, ReadCount2;
    MessageHead(ver, mask, m, s, n);
    CountedNone(ver, mask, m, s);
    EmptyLength(ver, mask, m);
    HeaderRoom(ver, mask, m);
    EntriesFromHeader(s, n, ver);
    if BeginEntries(s, n, ver).Ok? {
      NoneCounted(s, BeginEntries(s, n, ver).value);
    }
  }

  lemma HeaderRoom(ver: Version, mask: byte, m: Message)
    requires HeaderAccepted(ver, m.header, mask)
    ensures |EncodeMessage(ver, mask, m)| >= 10
  {
    hide UintXSize, HasRouting, HasEndpoint, HasPriority, HasMeta, HasMultiple, EncodeEntries;
    MessageSizes(ver, mask, m);
  }

  lemma CountNeverEnds(ver: Version, s: seq<byte>, o: nat)
    ensures ReadCount(ver, s, o) != Err(NoMore)
  {
  }

  /** The reader never reports the end of the entries of an empty message. */
  lemma EmptyNeverEnds(s: seq<byte>, n: nat, ver: Version, o: nat)
    requires o >= CountPlace(ver)
    ensures EntriesBehind(s, n, ver, o) != Err(NoMore)
  {
    hide ReadCount;
    CountNeverEnds(ver, s, o);
  }

  /** The phantom entry: if a size that fits stands behind an empty message, begin_read_entries
      succeeds on the bytes there, although the header reports no entries. */
  lemma PhantomEntry(ver: Version, mask: byte, m: Message, s: seq<byte>, n: nat, f: seq<byte>, k: u32)
    requires MessageAccepted(ver, mask, m, U32_MAX) && m.entries == []
    requires At(s, 0, EncodeMessage(ver, mask, m)) && |EncodeMessage(ver, mask, m)| <= n <= |s|
    requires IsCountField(ver, f, k) && At(s, |EncodeMessage(ver, mask, m)|, f)
    ensures |EncodeMessage(ver, mask, m)| >= 10
    ensures var o := |EncodeMessage(ver, mask, m)|;
            BeginEntries(s, n, ver) ==
            if o + k > n then Err(Protocol) else Ok(EntryCursor(ver, o, k, n - o - k, Some(o - CountPlace(ver)), 0))
  {
    hide At, EncodeMessage, HeaderAccepted, EntryInRange, HasMultiple, BeginEntries, IsCountField, ReadCount,
         ParseMessage, EntryNext;
    EmptyMessageReads(ver, mask, m, s, n);
    ReadCountAt(ver, s, |EncodeMessage(ver, mask, m)|, f, k);
  }

  /** With nothing behind it an empty message cannot be started on at all. */
  lemma EmptyAlone(ver: Version, mask: byte, m: Message)
    requires MessageAccepted(ver, mask, m, U32_MAX) && m.entries == []
    ensures var s := EncodeMessage(ver, mask, m); BeginEntries(s, |s|, ver) == Err(OutOfRange)
  {
    hide EncodeMessage, HeaderAccepted, EntryInRange, HasMultiple, BeginEntries, ReadCount, ParseMessage, EntryNext;
    var s := EncodeMessage(ver, mask, m);
    EmptyMessageReads(ver, mask, m, s, |s|);
    NothingToCount(ver, s);
  }

  lemma NothingToCount(ver: Version, s: seq<byte>)
    ensures ReadCount(ver, s, |s|) == Err(OutOfRange)
  {
  }

  /** Behind an empty message on a connection stands the next one. Its tag is taken for the
      size of an entry: 82 in version 4, which is begun, and 1128354386 in version 2. */
  lemma NextMessageTaken(ver: Version, mask: byte, m: Message, s: seq<byte>, n: nat)
    requires MessageAccepted(ver, mask, m, U32_MAX) && m.entries == []
    requires At(s, 0, EncodeMessage(ver, mask, m)) && |EncodeMessage(ver, mask, m)| <= n <= |s|
    requires At(s, |EncodeMessage(ver, mask, m)|, RRAC)
    ensures var k := if ver == V2 then 1128354386 else 82;
            BeginEntries(s, n, ver).Ok? <==> |EncodeMessage(ver, mask, m)| + k <= n
  {
    hide At, EncodeMessage, HeaderAccepted, EntryInRange, HasMultiple, BeginEntries, ParseMessage, EntryNext, LE32;
    var o := |EncodeMessage(ver, mask, m)|;
    TagAsSize(s, o);
    if ver == V2 {
      PhantomEntry(V2, mask, m, s, n, RRAC, 1128354386);
    } else {
      PhantomEntry(V4, mask, m, s, n, [82], 82);
    }
  }

  lemma TagAsSize(s: seq<byte>, o: nat)
    requires At(s, o, RRAC)
    ensures IsCountField(V2, RRAC, 1128354386)
    ensures IsCountField(V4, [82], 82) && At(s, o, [82])
  {
    assert LE32(1128354386) == RRAC;
    assert RRAC == [82] + [82, 65, 67];
    AtSplit(s, o, [82], [82, 65, 67]);
  }

  /** The smallest message that fails: nothing in the header, no entries. */
  const NOTHING := Message(MessageHeader(NODEID_ANY, NODEID_ANY, 0, 0, 0, [], [], [], 0, 0, 0), [])

  lemma NothingAccepted()
    ensures MessageAccepted(V2, 0, NOTHING, U32_MAX) && |EncodeMessage(V2, 0, NOTHING)| == 64
    ensures MessageAccepted(V4, 0x40, NOTHING, U32_MAX) && |EncodeMessage(V4, 0x40, NOTHING)| == 17
  {
    hide EncodeMessage, MessageHeaderBytes;
    assert HeaderAccepted(V2, NOTHING.header, 0) && HeaderSize2(NOTHING.header) == 64;
    EmptyLength(V2, 0, NOTHING);
    assert PredictedSize4(NOTHING.header, 0x40) == 16;
    EmptyLength(V4, 0x40, NOTHING);
  }

  /** The failing inputs: the writer accepts an empty message, the reader begins an entry of the
      bytes behind it, and without such bytes it fails for range. */
  lemma EmptyMessagesFail()
    ensures MessageAccepted(V2, 0, NOTHING, U32_MAX) && MessageAccepted(V4, 0x40, NOTHING, U32_MAX)
    ensures BeginEntries(EncodeMessage(V2, 0, NOTHING) + LE32(4), 68, V2) == Ok(EntryCursor(V2, 64, 4, 0, Some(58), 0))
    ensures BeginEntries(EncodeMessage(V4, 0x40, NOTHING) + [1], 18, V4) == Ok(EntryCursor(V4, 17, 1, 0, Some(12), 0))
    ensures BeginEntries(EncodeMessage(V2, 0, NOTHING), 64, V2) == Err(OutOfRange)
    ensures BeginEntries(EncodeMessage(V4, 0x40, NOTHING), 17, V4) == Err(OutOfRange)
  {
    NothingAccepted();
    hide EncodeMessage, MessageAccepted, BeginEntries, LE32;
    var m2, m4 := EncodeMessage(V2, 0, NOTHING), EncodeMessage(V4, 0x40, NOTHING);
    U32Exact(4);
    assert At(m2 + LE32(4), 0, m2) && At(m2 + LE32(4), 64, LE32(4)) && At(m4 + [1], 0, m4) && At(m4 + [1], 17, [1]);
    PhantomEntry(V2, 0, NOTHING, m2 + LE32(4), 68, LE32(4), 4);
    PhantomEntry(V4, 0x40, NOTHING, m4 + [1], 18, [1], 1);
    EmptyAlone(V2, 0, NOTHING);
    EmptyAlone(V4, 0x40, NOTHING);
  }

  // ---- the exact condition ----

  /** An element that is read back fits the format. */
  lemma {:induction false} ElementCarried(s: seq<byte>, c: ElementCursor, e: Element)
    requires ElementInRange(c.ver, e) && Shaped(e) && |EncodeElement(c.ver, e)| <= U32_MAX
    requires At(s, c.off, EncodeElement(c.ver, e)) && c.count == |EncodeElement(c.ver, e)|
    requires ReadsElement(s, c, e)
    ensures Carries(c.ver, e)
    decreases e, 1
  {
    match e
    case Raw(_, _, _, _) =>
    case Nested(h, children) =>
      hide EncodeElement, EncodeElements, ParseElement, At, ElementMatches, ElementFits, BeginNested, OnElements,
           NestedHeaderSize, Nestable, ReadsElements;
      HeaderCarried(s, c, h, children);
      if children != [] {
        DescendBack(s, c, h, children);
        ElementsCarried(s, BeginNested(s, c).value, children);
      }
  }

  lemma HeaderCarried(s: seq<byte>, c: ElementCursor, h: ElementHeader, children: seq<Element>)
    requires |EncodeElement(c.ver, Nested(h, children))| <= U32_MAX
    requires At(s, c.off, EncodeElement(c.ver, Nested(h, children)))
    requires ParseElement(c.ver, s, c.off).Ok? && ElementMatches(s, ParseElement(c.ver, s, c.off).value, h)
    requires BeginNested(s, c).Ok? || BeginNested(s, c) == Err(NoMore)
    ensures ElementFits(c.ver, h) && Nestable(h.elementType)
  {
    hide EncodeElement, EncodeElements, ParseElement, At, Holds, ElementFits, NestedHeaderSize, Nestable,
         IsCountField, PatchField, ElementHeaderBytes, ReadCount, SizeSub;
    EnteredIff(s, c);
    hide BeginNested;
    var v, n := c.ver, |EncodeElement(c.ver, Nested(h, children))|;
    NestedBytes(v, s, c.off, h, children);
    CountFields(v, n);
    CountFields(v, |children|);
    ElementRoundTripIff(v, s, c.off, h, PatchField(v, n), PatchField(v, |children|), n, |children|);
  }

  lemma {:induction false} ElementsCarried(s: seq<byte>, c: ElementCursor, es: seq<Element>)
    requires OnElements(s, c, es) && ReadsElements(s, c, es)
    requires forall e | e in es :: ElementInRange(c.ver, e) && Shaped(e)
    ensures forall e | e in es :: Carries(c.ver, e)
    decreases es, 0
  {
    hide EncodeElement, EncodeElements, Carries, ReadsElement, OnElements, ElementNext, ElementInRange, Shaped;
    OnElement(s, c, es);
    ElementCarried(s, c, es[0]);
    assert es == [es[0]] + es[1..];
    if |es| > 1 {
      OnNextElement(s, c, es);
      ElementsCarried(s, ElementNext(s, c).value, es[1..]);
    }
  }

  lemma EntryCarried(s: seq<byte>, c: EntryCursor, e: Entry)
    requires EntryInRange(c.ver, e) && EntryShaped(e) && |EncodeEntry(c.ver, e)| <= U32_MAX
    requires At(s, c.off, EncodeEntry(c.ver, e)) && c.count == |EncodeEntry(c.ver, e)|
    requires ReadsEntry(s, c, e)
    ensures CarriesEntry(c.ver, e)
  {
    hide EncodeEntry, EncodeElements, ParseEntry, At, EntryMatches, EntryFits, BeginElements, OnElements, Carries,
         EntryHeaderBytes, EntryHeaderSize, ReadsElements, ElementInRange, Shaped;
    EntryBytes(c.ver, s, c.off, e);
    EntryRoundTripIff(c.ver, s, c.off, e.header, |EncodeEntry(c.ver, e)|, |e.elements|);
    CountCarried(c.ver, s, c.off);
    if e.elements != [] {
      FirstElement(s, c, e);
      ElementsCarried(s, BeginElements(s, c).value, e.elements);
    }
  }

  lemma CountCarried(ver: Version, s: seq<byte>, o: nat)
    ensures ver == V2 && ParseEntry(ver, s, o).Ok? ==> ParseEntry(ver, s, o).value.elementCount <= U16_MAX
  {
    hide ParseEntry2, ParseEntry4;
    Entry2Bounds(s, o);
  }

  lemma {:induction false} EntriesCarried(s: seq<byte>, c: EntryCursor, es: seq<Entry>)
    requires OnEntries(s, c, es) && ReadsEntries(s, c, es)
    requires forall e | e in es :: EntryInRange(c.ver, e) && EntryShaped(e)
    ensures forall e | e in es :: CarriesEntry(c.ver, e)
    decreases es
  {
    hide EncodeEntry, EncodeEntries, CarriesEntry, ReadsEntry, OnEntries, EntryNext, EntryInRange, EntryShaped;
    OnEntry(s, c, es);
    EntryCarried(s, c, es[0]);
    assert es == [es[0]] + es[1..];
    if |es| > 1 {
      OnNextEntry(s, c, es);
      EntriesCarried(s, EntryNext(s, c).value, es[1..]);
    }
  }

  /** The round trip over every message the writer accepts: its header and entries come back
      if and only if it has an entry and every entry and element fits the format. */
  lemma MessageReadsBackIff(ver: Version, mask: byte, m: Message, s: seq<byte>, n: nat)
    requires MessageAccepted(ver, mask, m, U32_MAX) && forall e | e in m.entries :: EntryShaped(e)
    requires At(s, 0, EncodeMessage(ver, mask, m)) && |EncodeMessage(ver, mask, m)| <= n <= |s|
    ensures ReadsMessage(s, n, ver, Visible(ver, mask, m), m.entries)
       <==> m.entries != [] && forall e | e in m.entries :: CarriesEntry(ver, e)
  {
    hide At, EncodeEntries, EncodeMessage, CarriesEntry, EntryInRange, EntryShaped, ParseMessage, MessageMatches,
         HeaderAccepted, HasMultiple, MessageHeaderSize, CheckMessage, Visible, BeginEntries, ReadsEntries,
         CountsEntries, OnEntries, EntriesBehind, EntryNext;
    if m.entries == [] {
      EmptyMessageReads(ver, mask, m, s, n);
      EmptyNeverEnds(s, n, ver, |EncodeMessage(ver, mask, m)|);
    } else if forall e | e in m.entries :: CarriesEntry(ver, e) {
      MessageRoundTrip(ver, mask, m, s, n);
    } else if ReadsMessage(s, n, ver, Visible(ver, mask, m), m.entries) {
      MessageHead(ver, mask, m, s, n);
      MessageSizes(ver, mask, m);
      FirstEntry(ver, mask, m, s, n);
      EntriesCarried(s, BeginEntries(s, n, ver).value, m.entries);
    }
  }
}
