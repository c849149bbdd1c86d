/** Reading an encoded message back: walking the cursors over the encoding of a tree, with
    anything behind it, meets exactly that tree. */
module RoundTrip {
  import opened Base
  import opened Wire
  import opened Headers
  import opened MessageHeaders
  import opened Tree
  import opened Cursor
  import opened WholeMessage

  // ---- what it means that the cursors read a tree ----

  /** The element under the cursor is e: same header, and either its data is read back with
      every item size that fits, or its children are met one after the other. */
  ghost predicate ReadsElement(s: seq<byte>, c: ElementCursor, e: Element)
    decreases e, 1
  {
    var r := ParseElement(c.ver, s, c.off);
    r.Ok? &&
    match e
    case Raw(name, dataType, count, data) =>
      && ElementMatches(s, r.value, DataHeader(name, dataType))
      && r.value.dataCount == count
      && forall elemSize: nat, destLen: nat | 0 < elemSize && elemSize * count == |data| && count <= destLen ::
           ReadData(s, c, dataType, elemSize, destLen) == Ok((data, count))
    case Nested(h, children) =>
      && ElementMatches(s, r.value, h)
      && r.value.dataCount == |children|
      && if children == [] then BeginNested(s, c) == Err(NoMore)
         else BeginNested(s, c).Ok? && ReadsElements(s, BeginNested(s, c).value, children)
  }

  ghost predicate ReadsElements(s: seq<byte>, c: ElementCursor, es: seq<Element>)
    decreases es, 0
  {
    && es != []
    && ReadsElement(s, c, es[0])
    && if |es| == 1 then ElementNext(s, c) == Err(NoMore)
       else ElementNext(s, c).Ok? && ReadsElements(s, ElementNext(s, c).value, es[1..])
  }

  ghost predicate ReadsEntry(s: seq<byte>, c: EntryCursor, e: Entry) {
    var r := ParseEntry(c.ver, s, c.off);
    && r.Ok?
    && EntryMatches(s, r.value, e.header)
    && r.value.elementCount == |e.elements|
    && if e.elements == [] then BeginElements(s, c) == Err(NoMore)
       else BeginElements(s, c).Ok? && ReadsElements(s, BeginElements(s, c).value, e.elements)
  }

  ghost predicate ReadsEntries(s: seq<byte>, c: EntryCursor, es: seq<Entry>)
    decreases es
  {
    && es != []
    && ReadsEntry(s, c, es[0])
    && if |es| == 1 then EntryNext(s, c) == Err(NoMore)
       else EntryNext(s, c).Ok? && ReadsEntries(s, EntryNext(s, c).value, es[1..])
  }

  /** A reader on the first n bytes accepts the message, its header decodes to h and its
      entry cursor meets exactly the given entries; if there are none, it reports the end. */
  ghost predicate ReadsMessage(s: seq<byte>, n: nat, ver: Version, h: MessageHeader, es: seq<Entry>) {
    && CheckMessage(s, n) == Success
    && ParseMessage(s).Ok? && ParseMessage(s).value.0 == ver
    && MessageMatches(s, ParseMessage(s).value.1, h)
    && if es == [] then BeginEntries(s, n, ver) == Err(NoMore)
       else BeginEntries(s, n, ver).Ok? && ReadsEntries(s, BeginEntries(s, n, ver).value, es)
  }

  // ---- what the format can carry ----

  /** Elements that fit the version: in version 2 no codes and 16-bit strings; nested elements
      have one of the container types. */
  predicate Carries(ver: Version, e: Element) {
    match e
    case Raw(name, dataType, count, data) => RawInRange(ver, name, count, |data|) && Shaped(e)
    case Nested(h, children) => ElementFits(ver, h) && Nestable(h.elementType) && forall c | c in children ::
        Carries(ver, c)
  }

  predicate CarriesEntry(ver: Version, e: Entry) {
    && EntryFits(ver, e.header)
    && (ver == V2 ==> |e.elements| <= U16_MAX)
    && forall c | c in e.elements :: Carries(ver, c)
  }

  lemma CarriesInRange(ver: Version, e: Element)
    requires Carries(ver, e)
    ensures ElementInRange(ver, e) && Shaped(e)
  {
    match e
    case Raw(_, _, _, _) =>
    case Nested(h, children) =>
      forall c | c in children ensures ElementInRange(ver, c) && Shaped(c) {
        CarriesInRange(ver, c);
      }
  }

  // ---- elements ----

  /** The size of any element in range can be read from its encoding, whether or not the rest
      of its header survives. */
  lemma ElementSizeRead(ver: Version, s: seq<byte>, o: nat, e: Element)
    requires ElementInRange(ver, e) && |EncodeElement(ver, e)| <= U32_MAX
    requires At(s, o, EncodeElement(ver, e))
    ensures ReadCount(ver, s, o).Ok? && ReadCount(ver, s, o).value.0 == |EncodeElement(ver, e)|
  {
    hide At, EncodeElement, EncodeElements, ReadCount, NestedHeaderSize, RawInRange;
    match e
    case Raw(name, dataType, count, data) =>
      RawHead(ver, s, o, name, dataType, count, data);
    case Nested(h, children) =>
      NestedBytes(ver, s, o, h, children);
  }

  /** The header and the children of an encoded nested element, as they stand in the bytes. */
  lemma NestedBytes(ver: Version, s: seq<byte>, o: nat, h: ElementHeader, children: seq<Element>)
    requires |EncodeElement(ver, Nested(h, children))| <= U32_MAX
    requires At(s, o, EncodeElement(ver, Nested(h, children)))
    ensures var n := |EncodeElement(ver, Nested(h, children))|;
            && n <= 0xFFFF_FFFF && |children| <= 0xFFFF_FFFF
            && ReadCount(ver, s, o).Ok? && ReadCount(ver, s, o).value.0 == n
            && At(s, o, ElementHeaderBytes(ver, h, PatchField(ver, n), PatchField(ver, |children|)))
            && At(s, o + NestedHeaderSize(ver, h), EncodeElements(ver, children))
  {
    hide *;
    NestedShape(ver, h, children);
    var n := |EncodeElement(ver, Nested(h, children))|;
    var size, c := PatchField(ver, n), PatchField(ver, |children|);
    AtSplit(s, o, ElementHeaderBytes(ver, h, size, c), EncodeElements(ver, children));
    CountFields(ver, n);
    ElementHeaderShape(ver, h, size, c);
    AtSplit3(s, o, size, ElementMiddle(ver, h), c);
    ReadCountAt(ver, s, o, size, n);
  }

  lemma RawHead(ver: Version, s: seq<byte>, o: nat, name: text, dataType: u16, count: u32, data: text)
    requires RawInRange(ver, name, count, |data|)
    requires At(s, o, EncodeElement(ver, Raw(name, dataType, count, data)))
    ensures var n := |EncodeElement(ver, Raw(name, dataType, count, data))|;
            && ReadCount(ver, s, o).Ok? && ReadCount(ver, s, o).value.0 == n
            && ParseElement(ver, s, o).Ok?
            && var info := ParseElement(ver, s, o).value;
            && ElementMatches(s, info, DataHeader(name, dataType)) && info.dataCount == count
            && info.elementSize == n && info.dataStart == o + n - |data| && At(s, info.dataStart, data)
  {
    hide *;
    RawShape(ver, name, dataType, count, data);
    var n := |EncodeElement(ver, Raw(name, dataType, count, data))|;
    var size, c := FinalField(ver, n), FinalField(ver, count);
    var h := DataHeader(name, dataType);
    AtSplit(s, o, ElementHeaderBytes(ver, h, size, c), data);
    CountFields(ver, n);
    CountFields(ver, count);
    DataHeaderFits(ver, name, dataType, count, |data|);
    ElementParses(ver, s, o, h, size, c, n, count);
    ElementHeaderShape(ver, h, size, c);
    AtSplit3(s, o, size, ElementMiddle(ver, h), c);
    ReadCountAt(ver, s, o, size, n);
  }

  lemma RawShape(ver: Version, name: text, dataType: u16, count: u32, data: text)
    requires RawInRange(ver, name, count, |data|)
    ensures var n := |EncodeElement(ver, Raw(name, dataType, count, data))|;
            && n <= 0xFFFF_FFFF
            && EncodeElement(ver, Raw(name, dataType, count, data))
            == ElementHeaderBytes(ver, DataHeader(name, dataType), FinalField(ver, n), FinalField(ver, count)) + data
  {
    RawLength(ver, name, dataType, count, data);
    U32Exact(RawTotal(ver, |name|, count, |data|));
    hide ElementMiddle, FinalField, DataHeader, U32OfSize, RawTotal;
  }

  lemma CountFields(ver: Version, n: u32)
    ensures IsCountField(ver, FinalField(ver, n), n) && IsCountField(ver, PatchField(ver, n), n)
  {
  }

  lemma ElementHeaderShape(ver: Version, h: ElementHeader, size: seq<byte>, count: seq<byte>)
    ensures ElementHeaderBytes(ver, h, size, count) == size + ElementMiddle(ver, h) + count
  {
  }

  lemma DataHeaderFits(ver: Version, name: text, dataType: u16, count: nat, dataLen: nat)
    requires RawInRange(ver, name, count, dataLen)
    ensures ElementFits(ver, DataHeader(name, dataType))
  {
  }

  lemma NestedHead(ver: Version, s: seq<byte>, o: nat, h: ElementHeader, children: seq<Element>)
    requires ElementFits(ver, h)
    requires |EncodeElement(ver, Nested(h, children))| <= U32_MAX
    requires At(s, o, EncodeElement(ver, Nested(h, children)))
    ensures ReadCount(ver, s, o).Ok? && ReadCount(ver, s, o).value.0 == |EncodeElement(ver, Nested(h, children))|
    ensures ParseElement(ver, s, o).Ok?
    ensures var info := ParseElement(ver, s, o).value;
            && ElementMatches(s, info, h) && info.dataCount == |children|
            && info.dataStart == o + NestedHeaderSize(ver, h)
            && At(s, info.dataStart, EncodeElements(ver, children))
  {
    hide *;
    NestedBytes(ver, s, o, h, children);
    NestedShape(ver, h, children);
    var n := |EncodeElement(ver, Nested(h, children))|;
    CountFields(ver, n);
    CountFields(ver, |children|);
    ElementParses(ver, s, o, h, PatchField(ver, n), PatchField(ver, |children|), n, |children|);
  }

  lemma NestedShape(ver: Version, h: ElementHeader, children: seq<Element>)
    requires |EncodeElement(ver, Nested(h, children))| <= U32_MAX
    ensures var n := |EncodeElement(ver, Nested(h, children))|;
            && n <= 0xFFFF_FFFF && |children| <= 0xFFFF_FFFF
            && n == NestedHeaderSize(ver, h) + |EncodeElements(ver, children)|
            && EncodeElement(ver, Nested(h, children))
            == ElementHeaderBytes(ver, h, PatchField(ver, n), PatchField(ver, |children|))
                + EncodeElements(ver, children)
            && |ElementHeaderBytes(ver, h, PatchField(ver, n), PatchField(ver, |children|))| == NestedHeaderSize(ver, h)
  {
    NestedLength(ver, h, children);
    ElementsAtLeast(ver, children);
    hide ElementMiddle, PatchField, EncodeElements;
  }

  /** The reader enters exactly the types that a tree may nest. */
  lemma EntersNestable(elementType: u16)
    ensures IsContainer(elementType) <==> Nestable(elementType)
  {
  }

  /** On any bytes: what cannot be parsed is reported as such, a type that does not nest as a mismatch,
      and an element that counts no children as the end; otherwise the first child is entered, if its size
      can be read and is no more than what the header leaves of the window. */
  lemma EnteredIff(s: seq<byte>, c: ElementCursor)
    ensures var header, inner := ParseElement(c.ver, s, c.off), BeginNested(s, c);
            && (header.Err? ==> inner.Err? && inner.status == header.status)
            && (inner == Err(TypeMismatch) <==> header.Ok? && !Nestable(header.value.elementType))
            && (inner == Err(NoMore) <==>
                  header.Ok? && Nestable(header.value.elementType) && header.value.dataCount == 0)
            && (header.Ok? && Nestable(header.value.elementType) && header.value.dataCount > 0 ==>
                  var start, size := header.value.dataStart, ReadCount(c.ver, s, header.value.dataStart);
                  && (size.Err? ==> inner.Err? && inner.status == size.status)
                  && (size.Ok? && size.value.0 > SizeSub(c.count, SizeSub(start, c.off)) ==> inner == Err(Protocol))
                  && (size.Ok? && size.value.0 <= SizeSub(c.count, SizeSub(start, c.off)) ==>
                        && inner.Ok? && inner.value.off == start && inner.value.count == size.value.0
                        && inner.value.total == header.value.dataCount && inner.value.current == 0))
  {
    ParseElementFails(c.ver, s, c.off);
    var header := ParseElement(c.ver, s, c.off);
    if header.Ok? {
      EntersNestable(header.value.elementType);
      ReadCountFails(c.ver, s, header.value.dataStart);
    }
    hide ParseElement, ReadCount, IsContainer, Nestable, SizeSub;
  }

  /** Descending into an element whose header fits its window: nothing wraps. */
  lemma NestedStep(s: seq<byte>, c: ElementCursor, size: u32)
    requires ParseElement(c.ver, s, c.off).Ok?
    requires var info := ParseElement(c.ver, s, c.off).value;
             && Nestable(info.elementType) && info.dataCount != 0
             && ReadCount(c.ver, s, info.dataStart).Ok? && ReadCount(c.ver, s, info.dataStart).value.0 == size
             && c.off <= info.dataStart && info.dataStart - c.off + size <= c.count <= 0xFFFF_FFFF
    ensures var info := ParseElement(c.ver, s, c.off).value;
            BeginNested(s, c) == Ok(ElementCursor(c.ver, info.dataStart, size, c.off + c.count - info.dataStart - size,
                0, info.dataCount))
  {
    hide ParseElement, ReadCount, IsContainer, Nestable, SizeSub;
    EntersNestable(ParseElement(c.ver, s, c.off).value.elementType);
    var start := ParseElement(c.ver, s, c.off).value.dataStart;
    SizeSubExact(start, c.off);
    SizeSubExact(c.count, start - c.off);
    SizeSubExact(c.count - (start - c.off), size);
  }

  /** Raw data comes back for every item size that fits, into any storage with room for it. */
  lemma RawStep(s: seq<byte>, c: ElementCursor, data: text, elemSize: nat, destLen: nat)
    requires ParseElement(c.ver, s, c.off).Ok?
    requires var info := ParseElement(c.ver, s, c.off).value;
             && elemSize > 0 && elemSize * info.dataCount == |data| && info.dataCount <= destLen
             && c.off <= info.dataStart && info.elementSize == info.dataStart - c.off + |data| <= 0xFFFF_FFFF
             && At(s, info.dataStart, data)
    ensures var info := ParseElement(c.ver, s, c.off).value;
            ReadData(s, c, info.elementType, elemSize, destLen) == Ok((data, info.dataCount))
  {
    hide ParseElement, SizeSub;
    var info := ParseElement(c.ver, s, c.off).value;
    SizeSubExact(info.dataStart, c.off);
    SizeSubExact(info.elementSize, info.dataStart - c.off);
    if info.dataCount != 0 {
      assert elemSize * info.dataCount > 0;
    }
  }

  /** An element is read back as it was encoded, whatever its depth. */
  lemma ReadElementBack(s: seq<byte>, c: ElementCursor, e: Element)
    requires Carries(c.ver, e) && |EncodeElement(c.ver, e)| <= U32_MAX
    requires At(s, c.off, EncodeElement(c.ver, e)) && c.count == |EncodeElement(c.ver, e)|
    ensures ReadsElement(s, c, e)
    decreases e, 1
  {
    match e
    case Raw(name, dataType, count, data) =>
      ReadRawBack(s, c, name, dataType, count, data);
    case Nested(h, children) =>
      hide EncodeElement, EncodeElements, NestedHeaderSize, ParseElement, At, ElementMatches, ElementFits, ReadCount,
           BeginNested;
      NestedHead(c.ver, s, c.off, h, children);
      if children != [] {
        CarriesInRange(c.ver, children[0]);
        DescendBack(s, c, h, children);
        ReadElementsBack(s, BeginNested(s, c).value, children);
      } else {
        NoChildren(s, c);
      }
  }

  lemma NoChildren(s: seq<byte>, c: ElementCursor)
    requires ParseElement(c.ver, s, c.off).Ok? && Nestable(ParseElement(c.ver, s, c.off).value.elementType)
    requires ParseElement(c.ver, s, c.off).value.dataCount == 0
    ensures BeginNested(s, c) == Err(NoMore)
  {
    hide ParseElement, ReadCount, IsContainer, Nestable, BeginNested;
    EnteredIff(s, c);
  }

  lemma DescendBack(s: seq<byte>, c: ElementCursor, h: ElementHeader, children: seq<Element>)
    requires ElementFits(c.ver, h) && Nestable(h.elementType)
    requires |children| > 0 && ElementInRange(c.ver, children[0])
    requires |EncodeElement(c.ver, Nested(h, children))| <= U32_MAX
    requires At(s, c.off, EncodeElement(c.ver, Nested(h, children)))
        && c.count == |EncodeElement(c.ver, Nested(h, children))|
    ensures BeginNested(s, c).Ok?
    ensures var inner := BeginNested(s, c).value;
            inner.ver == c.ver && OnElements(s, inner, children)
  {
    hide EncodeElement, EncodeElements, NestedHeaderSize, ParseElement, At, ElementFits, ReadCount, BeginNested,
         Carries, Nestable;
    var v := c.ver;
    NestedHead(v, s, c.off, h, children);
    NestedShape(v, h, children);
    EncodeElementsCons(v, children);
    var first, rest := EncodeElement(v, children[0]), EncodeElements(v, children[1..]);
    var start := c.off + NestedHeaderSize(v, h);
    AtSplit(s, start, first, rest);
    ElementSizeRead(v, s, start, children[0]);
    NestedStep(s, c, |first|);
  }

  lemma ReadRawBack(s: seq<byte>, c: ElementCursor, name: text, dataType: u16, count: u32, data: text)
    requires RawInRange(c.ver, name, count, |data|)
    requires At(s, c.off, EncodeElement(c.ver, Raw(name, dataType, count, data)))
    ensures ReadsElement(s, c, Raw(name, dataType, count, data))
  {
    var v := c.ver;
    RawHead(v, s, c.off, name, dataType, count, data);
    RawShape(v, name, dataType, count, data);
    hide EncodeElement, ParseElement, RawInRange, ReadData, At;
    forall elemSize: nat, destLen: nat | 0 < elemSize && elemSize * count == |data| && count <= destLen
      ensures ReadData(s, c, dataType, elemSize, destLen) == Ok((data, count))
    {
      RawStep(s, c, data, elemSize, destLen);
    }
  }

  lemma ElementStep(s: seq<byte>, c: ElementCursor, size: u32)
    requires c.current + 1 < c.total && ReadCount(c.ver, s, c.off + c.count).Ok?
    requires ReadCount(c.ver, s, c.off + c.count).value.0 == size <= c.remaining
    ensures ElementNext(s, c) == Ok(c.(off := c.off + c.count, count := size, remaining := c.remaining - size,
        current := c.current + 1))
  {
    hide ReadCount;
  }

  /** The cursor stands on the encoding of a run of elements. */
  ghost predicate OnElements(s: seq<byte>, c: ElementCursor, es: seq<Element>) {
    && |es| > 0 && |EncodeElements(c.ver, es)| <= U32_MAX
    && At(s, c.off, EncodeElements(c.ver, es)) && c.count == |EncodeElement(c.ver, es[0])|
    && c.count + c.remaining == |EncodeElements(c.ver, es)| && c.current + |es| == c.total
  }

  lemma OnElement(s: seq<byte>, c: ElementCursor, es: seq<Element>)
    requires OnElements(s, c, es)
    ensures |es| > 0
    ensures |EncodeElement(c.ver, es[0])| <= U32_MAX
    ensures At(s, c.off, EncodeElement(c.ver, es[0])) && c.count == |EncodeElement(c.ver, es[0])|
  {
    hide EncodeElement, EncodeElements, At;
    EncodeElementsCons(c.ver, es);
    AtSplit(s, c.off, EncodeElement(c.ver, es[0]), EncodeElements(c.ver, es[1..]));
  }

  lemma RestElements(s: seq<byte>, c: ElementCursor, es: seq<Element>)
    requires OnElements(s, c, es) && |es| > 1
    ensures |EncodeElements(c.ver, es[1..])| <= U32_MAX
        && c.remaining == |EncodeElements(c.ver, es[1..])| >= |EncodeElement(c.ver, es[1])|
    ensures At(s, c.off + c.count, EncodeElements(c.ver, es[1..]))
        && At(s, c.off + c.count, EncodeElement(c.ver, es[1]))
  {
    hide EncodeElement, EncodeElements, At;
    EncodeElementsCons(c.ver, es);
    AtSplit(s, c.off, EncodeElement(c.ver, es[0]), EncodeElements(c.ver, es[1..]));
    EncodeElementsCons(c.ver, es[1..]);
    AtSplit(s, c.off + c.count, EncodeElement(c.ver, es[1]), EncodeElements(c.ver, es[1..][1..]));
  }

  lemma OnNextElement(s: seq<byte>, c: ElementCursor, es: seq<Element>)
    requires OnElements(s, c, es) && |es| > 1 && ElementInRange(c.ver, es[1])
    ensures ElementNext(s, c).Ok? && ElementNext(s, c).value.ver == c.ver
        && OnElements(s, ElementNext(s, c).value, es[1..])
  {
    hide EncodeElement, EncodeElements, ElementInRange, At, ReadCount, ElementNext;
    var v := c.ver;
    RestElements(s, c, es);
    ElementSizeRead(v, s, c.off + c.count, es[1]);
    ElementStep(s, c, |EncodeElement(v, es[1])|);
  }

  lemma LastElement(s: seq<byte>, c: ElementCursor, es: seq<Element>)
    requires OnElements(s, c, es) && |es| == 1
    ensures ElementNext(s, c) == Err(NoMore)
  {
    hide EncodeElement, EncodeElements, At, ReadCount;
  }

  /** A run of elements is met in order, and the last is followed by the end. */
  lemma ReadElementsBack(s: seq<byte>, c: ElementCursor, es: seq<Element>)
    requires OnElements(s, c, es) && forall e | e in es :: Carries(c.ver, e)
    ensures ReadsElements(s, c, es)
    decreases es, 0
  {
    hide EncodeElement, EncodeElements, Carries, ReadsElement, OnElements, ElementNext, ElementInRange, Shaped;
    OnElement(s, c, es);
    ReadElementBack(s, c, es[0]);
    if |es| > 1 {
      CarriesInRange(c.ver, es[1]);
      OnNextElement(s, c, es);
      ReadElementsBack(s, ElementNext(s, c).value, es[1..]);
    } else {
      LastElement(s, c, es);
    }
  }

  // ---- entries ----

  lemma EntryShape(ver: Version, e: Entry)
    requires |EncodeEntry(ver, e)| <= U32_MAX
    ensures var n := |EncodeEntry(ver, e)|;
            && n <= 0xFFFF_FFFF && |e.elements| <= 0xFFFF_FFFF
            && n == EntryHeaderSize(ver, e.header) + |EncodeElements(ver, e.elements)|
            && EncodeEntry(ver, e) == EntryHeaderBytes(ver, e.header, n, |e.elements|) + EncodeElements(ver, e.elements)
            && |EntryHeaderBytes(ver, e.header, n, |e.elements|)| == EntryHeaderSize(ver, e.header)
  {
    EntryLength(ver, e);
    ElementsAtLeast(ver, e.elements);
    hide EntryMiddle, PatchField, EntryCountField, EncodeElements;
  }

  lemma EntryHeaderShape(ver: Version, h: EntryHeader, size: u32, count: nat)
    ensures EntryHeaderBytes(ver, h, size, count)
        == PatchField(ver, size) + EntryMiddle(ver, h) + EntryCountField(ver, count)
  {
  }

  /** The size of any entry can be read from its encoding. */
  lemma EntryBytes(ver: Version, s: seq<byte>, o: nat, e: Entry)
    requires |EncodeEntry(ver, e)| <= U32_MAX
    requires At(s, o, EncodeEntry(ver, e))
    ensures ReadCount(ver, s, o).Ok? && ReadCount(ver, s, o).value.0 == |EncodeEntry(ver, e)|
    ensures At(s, o, EntryHeaderBytes(ver, e.header, |EncodeEntry(ver, e)|, |e.elements|))
    ensures At(s, o + EntryHeaderSize(ver, e.header), EncodeElements(ver, e.elements))
  {
    hide *;
    EntryShape(ver, e);
    var n, k := |EncodeEntry(ver, e)|, |e.elements|;
    AtSplit(s, o, EntryHeaderBytes(ver, e.header, n, k), EncodeElements(ver, e.elements));
    EntryHeaderShape(ver, e.header, n, k);
    AtSplit3(s, o, PatchField(ver, n), EntryMiddle(ver, e.header), EntryCountField(ver, k));
    CountFields(ver, n);
    ReadCountAt(ver, s, o, PatchField(ver, n), n);
  }

  lemma EntryHead(ver: Version, s: seq<byte>, o: nat, e: Entry)
    requires EntryFits(ver, e.header) && (ver == V2 ==> |e.elements| <= U16_MAX)
    requires |EncodeEntry(ver, e)| <= U32_MAX
    requires At(s, o, EncodeEntry(ver, e))
    ensures ReadCount(ver, s, o).Ok? && ReadCount(ver, s, o).value.0 == |EncodeEntry(ver, e)|
    ensures ParseEntry(ver, s, o).Ok?
    ensures var info := ParseEntry(ver, s, o).value;
            && EntryMatches(s, info, e.header) && info.elementCount == |e.elements|
            && info.elementStart == o + EntryHeaderSize(ver, e.header)
            && At(s, info.elementStart, EncodeElements(ver, e.elements))
  {
    hide *;
    EntryShape(ver, e);
    EntryBytes(ver, s, o, e);
    EntryLimits(ver, e, |EncodeEntry(ver, e)|);
    EntryParses(ver, s, o, e.header, |EncodeEntry(ver, e)|, |e.elements|);
  }

  lemma EntryLimits(ver: Version, e: Entry, n: u32)
    requires |e.elements| <= 0xFFFF_FFFF && (ver == V2 ==> |e.elements| <= U16_MAX)
    ensures n <= U32_MAX && |e.elements| <= if ver == V2 then U16_MAX else U32_MAX
  {
  }

  lemma ElementsStart(s: seq<byte>, c: EntryCursor, size: u32)
    requires ParseEntry(c.ver, s, c.off).Ok?
    requires var info := ParseEntry(c.ver, s, c.off).value;
             && info.elementCount != 0 && c.off <= info.elementStart
             && ReadCount(c.ver, s, info.elementStart).Ok? && ReadCount(c.ver, s, info.elementStart).value.0 == size
             && info.elementStart - c.off + size <= c.count
    ensures var info := ParseEntry(c.ver, s, c.off).value;
            BeginElements(s, c) == Ok(ElementCursor(c.ver, info.elementStart, size,
                c.off + c.count - info.elementStart - size, 0, info.elementCount))
  {
    hide ParseEntry, ReadCount;
  }

  lemma FirstElement(s: seq<byte>, c: EntryCursor, e: Entry)
    requires EntryFits(c.ver, e.header) && (c.ver == V2 ==> |e.elements| <= U16_MAX)
    requires |EncodeEntry(c.ver, e)| <= U32_MAX && |e.elements| > 0 && ElementInRange(c.ver, e.elements[0])
    requires At(s, c.off, EncodeEntry(c.ver, e)) && c.count == |EncodeEntry(c.ver, e)|
    ensures BeginElements(s, c).Ok?
    ensures BeginElements(s, c).value.ver == c.ver && OnElements(s, BeginElements(s, c).value, e.elements)
  {
    hide EncodeEntry, EncodeElements, EncodeElement, EntryHeaderSize, ParseEntry, At, EntryMatches, EntryFits,
         ReadCount, ElementInRange, BeginElements;
    var v := c.ver;
    EntryHead(v, s, c.off, e);
    EntryShape(v, e);
    EncodeElementsCons(v, e.elements);
    var first, rest := EncodeElement(v, e.elements[0]), EncodeElements(v, e.elements[1..]);
    var start := c.off + EntryHeaderSize(v, e.header);
    AtSplit(s, start, first, rest);
    ElementSizeRead(v, s, start, e.elements[0]);
    ElementsStart(s, c, |first|);
  }

  lemma NoElements(s: seq<byte>, c: EntryCursor)
    requires ParseEntry(c.ver, s, c.off).Ok? && ParseEntry(c.ver, s, c.off).value.elementCount == 0
    ensures BeginElements(s, c) == Err(NoMore)
  {
    hide ParseEntry, ReadCount;
  }

  lemma ReadEntryBack(s: seq<byte>, c: EntryCursor, e: Entry)
    requires CarriesEntry(c.ver, e) && |EncodeEntry(c.ver, e)| <= U32_MAX
    requires At(s, c.off, EncodeEntry(c.ver, e)) && c.count == |EncodeEntry(c.ver, e)|
    ensures ReadsEntry(s, c, e)
  {
    hide EncodeEntry, EncodeElements, EntryHeaderSize, ParseEntry, At, EntryMatches, EntryFits, Carries, BeginElements,
         ReadsElements, OnElements;
    EntryHead(c.ver, s, c.off, e);
    if |e.elements| > 0 {
      CarriesInRange(c.ver, e.elements[0]);
      FirstElement(s, c, e);
      ReadElementsBack(s, BeginElements(s, c).value, e.elements);
    } else {
      NoElements(s, c);
    }
  }

  /** The number of entries is where the cursor looks for it. */
  ghost predicate CountsEntries(s: seq<byte>, c: EntryCursor, total: nat) {
    match c.countOffset
    case None => total == 1
    case Some(at) => ReadCount2(c.ver, s, at).Ok? && ReadCount2(c.ver, s, at).value.0 == total
  }

  lemma EntryStep(s: seq<byte>, c: EntryCursor, total: nat, size: u32)
    requires CountsEntries(s, c, total) && c.current + 1 < total && ReadCount(c.ver, s, c.off + c.count).Ok?
    requires ReadCount(c.ver, s, c.off + c.count).value.0 == size <= c.remaining
    ensures EntryNext(s, c) == Ok(c.(off := c.off + c.count, count := size, remaining := c.remaining - size,
        current := c.current + 1))
  {
    hide ReadCount, ReadCount2;
  }

  /** The cursor stands on the encoding of a run of entries, with anything behind. */
  ghost predicate OnEntries(s: seq<byte>, c: EntryCursor, es: seq<Entry>) {
    && |es| > 0 && |EncodeEntries(c.ver, es)| <= U32_MAX
    && At(s, c.off, EncodeEntries(c.ver, es)) && c.count == |EncodeEntry(c.ver, es[0])|
    && c.count + c.remaining >= |EncodeEntries(c.ver, es)| && CountsEntries(s, c, c.current + |es|)
  }

  lemma OnEntry(s: seq<byte>, c: EntryCursor, es: seq<Entry>)
    requires OnEntries(s, c, es)
    ensures |es| > 0
    ensures |EncodeEntry(c.ver, es[0])| <= U32_MAX
    ensures At(s, c.off, EncodeEntry(c.ver, es[0])) && c.count == |EncodeEntry(c.ver, es[0])|
  {
    hide EncodeEntry, EncodeEntries, At, CountsEntries;
    EncodeEntriesCons(c.ver, es);
    AtSplit(s, c.off, EncodeEntry(c.ver, es[0]), EncodeEntries(c.ver, es[1..]));
  }

  lemma RestEntries(s: seq<byte>, c: EntryCursor, es: seq<Entry>)
    requires OnEntries(s, c, es) && |es| > 1
    ensures |EncodeEntries(c.ver, es[1..])| <= U32_MAX
        && c.remaining >= |EncodeEntries(c.ver, es[1..])| >= |EncodeEntry(c.ver, es[1])|
    ensures At(s, c.off + c.count, EncodeEntries(c.ver, es[1..])) && At(s, c.off + c.count, EncodeEntry(c.ver, es[1]))
  {
    hide EncodeEntry, EncodeEntries, At, CountsEntries;
    EncodeEntriesCons(c.ver, es);
    AtSplit(s, c.off, EncodeEntry(c.ver, es[0]), EncodeEntries(c.ver, es[1..]));
    EncodeEntriesCons(c.ver, es[1..]);
    AtSplit(s, c.off + c.count, EncodeEntry(c.ver, es[1]), EncodeEntries(c.ver, es[1..][1..]));
  }

  lemma OnNextEntry(s: seq<byte>, c: EntryCursor, es: seq<Entry>)
    requires OnEntries(s, c, es) && |es| > 1
    ensures EntryNext(s, c).Ok? && EntryNext(s, c).value.ver == c.ver && OnEntries(s, EntryNext(s, c).value, es[1..])
  {
    hide EncodeEntry, EncodeEntries, EncodeElements, At, ReadCount, ReadCount2, EntryNext, EntryHeaderBytes,
         EntryHeaderSize;
    var v := c.ver;
    RestEntries(s, c, es);
    EntryBytes(v, s, c.off + c.count, es[1]);
    EntryStep(s, c, c.current + |es|, |EncodeEntry(v, es[1])|);
  }

  lemma LastEntry(s: seq<byte>, c: EntryCursor, es: seq<Entry>)
    requires OnEntries(s, c, es) && |es| == 1
    ensures EntryNext(s, c) == Err(NoMore)
  {
    hide EncodeEntry, EncodeEntries, At, ReadCount, ReadCount2;
  }

  lemma ReadEntriesBack(s: seq<byte>, c: EntryCursor, es: seq<Entry>)
    requires OnEntries(s, c, es) && forall e | e in es :: CarriesEntry(c.ver, e)
    ensures ReadsEntries(s, c, es)
    decreases es
  {
    hide EncodeEntry, EncodeEntries, CarriesEntry, ReadsEntry, OnEntries, EntryNext;
    OnEntry(s, c, es);
    ReadEntryBack(s, c, es[0]);
    if |es| > 1 {
      OnNextEntry(s, c, es);
      ReadEntriesBack(s, EntryNext(s, c).value, es[1..]);
    } else {
      LastEntry(s, c, es);
    }
  }

  // ---- messages ----

  /** The header as a reader sees it. */
  function Visible(ver: Version, mask: byte, m: Message): MessageHeader
    requires |m.entries| <= U32_MAX
  {
    if ver == V2 then m.header.(priority := 0, entryCount := |m.entries|) else Visible4(m.header, mask, |m.entries|)
  }

  /** How far before the end of the header its entry count stands. */
  function CountPlace(ver: Version): nat {
    if ver == V2 then 6 else 5
  }

  /** The header of an encoded message: fields, sizes, and the position of its entry count. */
  ghost predicate HeaderRead(ver: Version, mask: byte, m: Message, s: seq<byte>)
    requires HeaderAccepted(ver, m.header, mask) && |m.entries| <= U32_MAX
  {
    && ParseMessage(s).Ok? && ParseMessage(s).value.0 == ver
    && var info := ParseMessage(s).value.1;
    && info.headerSize == MessageHeaderSize(ver, m.header, mask)
    && MessageMatches(s, info, Visible(ver, mask, m))
    && CountsEntries(s, EntryCursor(ver, 0, 0, 0, info.entryCountOffset, 0), |m.entries|)
    && (info.entryCountOffset.Some? ==> info.entryCountOffset.value + CountPlace(ver) == info.headerSize)
  }

  lemma Version2Fields(h: MessageHeader, s: seq<byte>, size: nat, count: u16)
    requires At(s, 0, MessageHeader2Bytes(h, size, count))
    ensures ReadU16(s, 8) == Ok((2, 10))
    ensures ReadU16(s, HeaderSize2(h) - 6) == Ok((count, HeaderSize2(h) - 4))
  {
    hide At, MessageHeader2Bytes, ReadU16, LE16, LE32, Str2;
    Message2Splits(s, 0, h, size, count);
    ReadU16At(s, 8, 2);
    ReadU16At(s, HeaderSize2(h) - 6, count);
  }

  lemma Version2Head(mask: byte, m: Message, s: seq<byte>, size: u32)
    requires Header2InRange(m.header) && |m.entries| <= U16_MAX
    requires At(s, 0, MessageHeader2Bytes(m.header, size, |m.entries|))
    ensures HeaderRead(V2, mask, m, s)
  {
    hide At, ParseMessage2, MessageMatches, MessageHeader2Bytes, ReadU16;
    Message2Parses(s, 0, m.header, size, |m.entries|);
    Version2Fields(m.header, s, size, |m.entries|);
  }

  lemma Version4Head(mask: byte, m: Message, s: seq<byte>, size: u32)
    requires HeaderSize4(m.header, mask).Ok? && |m.entries| <= U32_MAX
    requires !HasMultiple(m.header, mask) ==> |m.entries| == 1
    requires At(s, 0, MessageHeader4Bytes(m.header, mask, size, |m.entries|))
    ensures HeaderRead(V4, mask, m, s)
  {
    hide At, ParseMessage4, MessageMatches, MessageHeader4Bytes, ReadU16, ReadUintX, Visible4, HasMultiple, HeaderSize4,
         LE16, PaddedUintX, U32OfSize;
    var h, k := m.header, |m.entries|;
    Message4Parses(s, 0, h, mask, size, k);
    Message4Splits(s, 0, h, mask, size, k);
    Header4SizeExact(h, mask, size, k);
    ReadU16At(s, 8, 4);
    if HasMultiple(h, mask) {
      U32Exact(k);
      ReadPaddedAt(s, HeaderSize4(h, mask).value - 5, k);
    }
  }

  /** Both versions start with the tag and the message size. */
  lemma MessagePrefix(ver: Version, mask: byte, h: MessageHeader, size: u32, count: nat, s: seq<byte>)
    requires HeaderAccepted(ver, h, mask)
    requires At(s, 0, MessageHeaderBytes(ver, h, mask, size, count))
    ensures At(s, 0, RRAC) && At(s, 4, LE32(U32OfSize(size)))
    ensures MessageHeaderSize(ver, h, mask) >= 10
  {
    hide At, MessageHeader2Bytes, MessageHeader4Bytes, HeaderSize4, LE32, Header2InRange, Middle2Pieces;
    MessageHeaderLength(ver, h, mask, size, count);
    if ver == V2 {
      Message2Splits(s, 0, h, size, count);
    } else {
      Message4Splits(s, 0, h, mask, size, count);
    }
  }

  lemma BytesOfVersion(ver: Version, h: MessageHeader, mask: byte, size: nat, count: nat)
    requires HeaderAccepted(ver, h, mask)
    ensures MessageHeaderBytes(ver, h, mask, size, count)
         == if ver == V2 then MessageHeader2Bytes(h, size, count) else MessageHeader4Bytes(h, mask, size, count)
  {
    hide MessageHeader2Bytes, MessageHeader4Bytes, HeaderSize4;
  }

  lemma MessageHead(ver: Version, mask: byte, m: Message, s: seq<byte>, n: nat)
    requires MessageAccepted(ver, mask, m, U32_MAX)
    requires At(s, 0, EncodeMessage(ver, mask, m)) && |EncodeMessage(ver, mask, m)| <= n <= |s|
    ensures CheckMessage(s, n) == Success
    ensures HeaderRead(ver, mask, m, s)
    ensures At(s, MessageHeaderSize(ver, m.header, mask), EncodeEntries(ver, m.entries))
  {
    hide At, MessageHeaderBytes, MessageHeader2Bytes, MessageHeader4Bytes, EncodeEntries, HeaderRead, EntryInRange,
         HeaderSize4, HasMultiple, LE32, U32OfSize;
    MessageSizes(ver, mask, m);
    var h, size, k := m.header, |EncodeMessage(ver, mask, m)|, |m.entries|;
    MessageHeaderLength(ver, h, mask, size, k);
    AtSplit(s, 0, MessageHeaderBytes(ver, h, mask, size, k), EncodeEntries(ver, m.entries));
    MessagePrefix(ver, mask, h, size, k, s);
    Announces(s, n, size);
    BytesOfVersion(ver, h, mask, size, k);
    if ver == V2 {
      Version2Head(mask, m, s, size);
    } else {
      Version4Head(mask, m, s, size);
    }
  }

  lemma Announces(s: seq<byte>, n: nat, size: u32)
    requires At(s, 0, RRAC) && At(s, 4, LE32(U32OfSize(size)))
    requires 10 <= n <= |s| && size <= n
    ensures CheckMessage(s, n) == Success
  {
    U32Exact(size);
    hide LE32, GetLE32, U32OfSize;
    LE32RoundTrip(size);
  }

  /** The messages that the format carries faithfully. */
  predicate MessageCarried(ver: Version, mask: byte, m: Message) {
    && MessageAccepted(ver, mask, m, U32_MAX)
    && forall e | e in m.entries :: CarriesEntry(ver, e)
  }

  lemma EntriesStart(s: seq<byte>, n: nat, ver: Version, size: u32)
    requires ParseMessage(s).Ok?
    requires var o := ParseMessage(s).value.1.headerSize;
             ReadCount(ver, s, o).Ok? && ReadCount(ver, s, o).value.0 == size && o + size <= n
    ensures var info := ParseMessage(s).value.1;
            BeginEntries(s, n, ver) == Ok(EntryCursor(ver, info.headerSize, size, n - info.headerSize - size,
                info.entryCountOffset, 0))
  {
    hide ParseMessage, ReadCount;
  }

  /** The entry cursor starts on the first entry of the encoding. */
  lemma FirstEntry(ver: Version, mask: byte, m: Message, s: seq<byte>, n: nat)
    requires HeaderAccepted(ver, m.header, mask) && 0 < |m.entries| <= U32_MAX
    requires HeaderRead(ver, mask, m, s)
    requires At(s, MessageHeaderSize(ver, m.header, mask), EncodeEntries(ver, m.entries))
    requires MessageHeaderSize(ver, m.header, mask) + |EncodeEntries(ver, m.entries)| <= n
    requires |EncodeEntries(ver, m.entries)| <= U32_MAX
    ensures BeginEntries(s, n, ver).Ok?
    ensures BeginEntries(s, n, ver).value.ver == ver && OnEntries(s, BeginEntries(s, n, ver).value, m.entries)
  {
    hide At, EncodeEntries, EncodeEntry, EncodeElements, EntryHeaderBytes, EntryHeaderSize, ReadCount, ReadCount2,
         ParseMessage, MessageMatches, HeaderAccepted, MessageHeaderSize, Visible, BeginEntries;
    var o := MessageHeaderSize(ver, m.header, mask);
    EncodeEntriesCons(ver, m.entries);
    AtSplit(s, o, EncodeEntry(ver, m.entries[0]), EncodeEntries(ver, m.entries[1..]));
    EntryBytes(ver, s, o, m.entries[0]);
    EntriesStart(s, n, ver, |EncodeEntry(ver, m.entries[0])|);
  }

  /** Round trip: a reader on the encoding of a message, with anything behind it, meets the
      same header as far as the format and mask keep it, and exactly the same entries,
      headers, nesting and data. */
  lemma MessageRoundTrip(ver: Version, mask: byte, m: Message, s: seq<byte>, n: nat)
    requires MessageCarried(ver, mask, m) && |m.entries| > 0
    requires At(s, 0, EncodeMessage(ver, mask, m)) && |EncodeMessage(ver, mask, m)| <= n <= |s|
    ensures ReadsMessage(s, n, ver, Visible(ver, mask, m), m.entries)
  {
    hide At, EncodeEntries, EncodeMessage, CarriesEntry, EntryInRange, ParseMessage, MessageMatches, HeaderAccepted,
         HasMultiple, MessageHeaderSize, CheckMessage, Visible, BeginEntries, ReadsEntries, CountsEntries, OnEntries;
    MessageHead(ver, mask, m, s, n);
    MessageSizes(ver, mask, m);
    FirstEntry(ver, mask, m, s, n);
    ReadEntriesBack(s, BeginEntries(s, n, ver).value, m.entries);
  }
}
