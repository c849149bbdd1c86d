/** What the bytes leave open: two trees that stand encoded at the same place of the same bytes
    are alike, and two that the cursors read on the same bytes are equal. */
module Uniqueness {
  import opened Base
  import opened Wire
  import opened Headers
  import opened MessageHeaders
  import opened Tree
  import opened Cursor
  import opened WholeMessage
  import opened RoundTrip

  // ---- only one tree is read ----

  /** Raw elements do not carry a container type, nested elements do. */
  predicate Typed(e: Element) {
    match e
    case Raw(_, dataType, _, _) => Shaped(e) && !Nestable(dataType)
    case Nested(h, children) => Nestable(h.elementType) && forall c | c in children :: Typed(c)
  }

  lemma ElementMatchesOne(s: seq<byte>, info: ElementInfo, a: ElementHeader, b: ElementHeader)
    requires ElementMatches(s, info, a) && ElementMatches(s, info, b)
    ensures a == b
  {
    hide Holds;
    HoldsOne(s, info.name, a.name, b.name);
    HoldsOne(s, info.typeName, a.typeName, b.typeName);
    HoldsOne(s, info.metadata, a.metadata, b.metadata);
  }

  lemma DataLength(s: seq<byte>, c: ElementCursor, dataType: u16, elemSize: nat, destLen: nat, data: text, count: u32)
    requires elemSize > 0 && ReadData(s, c, dataType, elemSize, destLen) == Ok((data, count)) && count > 0
    ensures ParseElement(c.ver, s, c.off).Ok?
    ensures var info := ParseElement(c.ver, s, c.off).value;
            elemSize * count == SizeSub(info.elementSize, SizeSub(info.dataStart, c.off))
  {
    hide ParseElement, SizeSub;
  }

  lemma Divides(n: nat, k: nat)
    requires n > 0 && k > 0 && n % k == 0
    ensures n / k > 0 && n / k * k == n
  {
    assert n == k * (n / k) + n % k;
  }

  lemma ItemSize(data: text, count: u32) returns (elemSize: nat)
    requires count > 0 && data != [] && |data| % count == 0
    ensures elemSize > 0 && elemSize * count == |data|
  {
    elemSize := |data| / count;
    Divides(|data|, count);
  }

  lemma RawOne(s: seq<byte>, c: ElementCursor, name: text, dataType: u16, count: u32, a: text, b: text)
    requires ReadsElement(s, c, Raw(name, dataType, count, a)) && ReadsElement(s, c, Raw(name, dataType, count, b))
    requires Shaped(Raw(name, dataType, count, a)) && Shaped(Raw(name, dataType, count, b))
    ensures a == b
  {
    hide ParseElement, ReadData, SizeSub, ElementMatches;
    if count > 0 {
      var i := ItemSize(a, count);
      var j := ItemSize(b, count);
      assert ReadData(s, c, dataType, i, count) == Ok((a, count));
      assert ReadData(s, c, dataType, j, count) == Ok((b, count));
      DataLength(s, c, dataType, i, count, a, count);
      DataLength(s, c, dataType, j, count, b, count);
      assert i * count == j * count;
      assert i == j;
    }
  }

  lemma {:induction false} ElementOne(s: seq<byte>, c: ElementCursor, a: Element, b: Element)
    requires ReadsElement(s, c, a) && ReadsElement(s, c, b) && Typed(a) && Typed(b)
    ensures a == b
    decreases a, 1
  {
    hide ParseElement, ReadData, ElementMatches, BeginNested, Nestable;
    SameKind(s, c, a, b);
    match a
    case Raw(name, dataType, count, data) =>
      RawOne(s, c, name, dataType, count, data, b.data);
    case Nested(h, children) =>
      if children != [] {
        ElementsOne(s, BeginNested(s, c).value, children, b.children);
      }
  }

  /** Kind, header and count are settled by the header alone. */
  lemma SameKind(s: seq<byte>, c: ElementCursor, a: Element, b: Element)
    requires ReadsElement(s, c, a) && ReadsElement(s, c, b) && Typed(a) && Typed(b)
    ensures a.Raw? <==> b.Raw?
    ensures a.Raw? ==> a.name == b.name && a.dataType == b.dataType && a.count == b.count
    ensures a.Nested? ==> a.header == b.header && |a.children| == |b.children|
  {
    hide ParseElement, ReadData, ElementMatches, BeginNested, ReadsElements, Nestable, Shaped;
    var info := ParseElement(c.ver, s, c.off).value;
    var ha := if a.Raw? then DataHeader(a.name, a.dataType) else a.header;
    var hb := if b.Raw? then DataHeader(b.name, b.dataType) else b.header;
    ElementMatchesOne(s, info, ha, hb);
  }

  lemma {:induction false} ElementsOne(s: seq<byte>, c: ElementCursor, a: seq<Element>, b: seq<Element>)
    requires ReadsElements(s, c, a) && ReadsElements(s, c, b)
    requires (forall e | e in a :: Typed(e)) && forall e | e in b :: Typed(e)
    ensures a == b
    decreases a, 0
  {
    hide ReadsElement, Typed, ElementNext;
    ElementOne(s, c, a[0], b[0]);
    assert a == [a[0]] + a[1..] && b == [b[0]] + b[1..];
    if |a| > 1 {
      ElementsOne(s, ElementNext(s, c).value, a[1..], b[1..]);
    }
  }

  predicate EntryTyped(e: Entry) {
    forall c | c in e.elements :: Typed(c)
  }

  lemma EntryMatchesOne(s: seq<byte>, info: EntryInfo, a: EntryHeader, b: EntryHeader)
    requires EntryMatches(s, info, a) && EntryMatches(s, info, b)
    ensures a == b
  {
    hide Holds;
    HoldsOne(s, info.servicePath, a.servicePath, b.servicePath);
    HoldsOne(s, info.memberName, a.memberName, b.memberName);
    HoldsOne(s, info.metadata, a.metadata, b.metadata);
  }

  lemma EntryOne(s: seq<byte>, c: EntryCursor, a: Entry, b: Entry)
    requires ReadsEntry(s, c, a) && ReadsEntry(s, c, b) && EntryTyped(a) && EntryTyped(b)
    ensures a == b
  {
    hide ParseEntry, EntryMatches, Typed, BeginElements, ReadsElements;
    EntryMatchesOne(s, ParseEntry(c.ver, s, c.off).value, a.header, b.header);
    if a.elements != [] {
      ElementsOne(s, BeginElements(s, c).value, a.elements, b.elements);
    }
  }

  /** Whole entries: at most one typed run of them is read, on any bytes. */
  lemma {:induction false} EntriesOne(s: seq<byte>, c: EntryCursor, a: seq<Entry>, b: seq<Entry>)
    requires ReadsEntries(s, c, a) && ReadsEntries(s, c, b)
    requires (forall e | e in a :: EntryTyped(e)) && forall e | e in b :: EntryTyped(e)
    ensures a == b
    decreases a
  {
    hide ReadsEntry, EntryTyped, EntryNext;
    EntryOne(s, c, a[0], b[0]);
    assert a == [a[0]] + a[1..] && b == [b[0]] + b[1..];
    if |a| > 1 {
      EntriesOne(s, EntryNext(s, c).value, a[1..], b[1..]);
    }
  }

  lemma MessageMatchesOne(s: seq<byte>, info: MessageInfo, a: MessageHeader, b: MessageHeader)
    requires MessageMatches(s, info, a) && MessageMatches(s, info, b)
    ensures a == b
  {
    hide Holds;
    HoldsOne(s, info.senderName, a.senderName, b.senderName);
    HoldsOne(s, info.receiverName, a.receiverName, b.receiverName);
    HoldsOne(s, info.metadata, a.metadata, b.metadata);
  }

  // ---- only one tree is encoded ----

  /** A raw and a nested element share their bytes when name, type and count agree, the data is
      the encoding of the children, and the raw size and count fields are as wide as patched ones. */
  ghost predicate RawLikeNested(ver: Version, raw: Element, h: ElementHeader, children: seq<Element>)
    requires raw.Raw?
  {
    && h == DataHeader(raw.name, raw.dataType) && raw.count == |children| && raw.data == EncodeElements(ver, children)
    && (ver == V4 ==> raw.count > U16_MAX)
  }

  /** Trees with the same encoding: equal but for nested elements standing as raw data. */
  ghost predicate Alike(ver: Version, a: Element, b: Element)
    decreases a, 1
  {
    match a
    case Raw(_, _, _, _) => if b.Raw? then a == b else RawLikeNested(ver, a, b.header, b.children)
    case Nested(h, children) =>
      if b.Raw? then RawLikeNested(ver, b, h, children)
      else h == b.header && AllAlike(ver, children, b.children)
  }

  ghost predicate AllAlike(ver: Version, a: seq<Element>, b: seq<Element>)
    decreases a, 0
  {
    |a| == |b| && forall i | 0 <= i < |a| :: Alike(ver, a[i], b[i])
  }

  ghost predicate AlikeEntries(ver: Version, a: seq<Entry>, b: seq<Entry>) {
    |a| == |b| && forall i | 0 <= i < |a| :: a[i].header == b[i].header && AllAlike(ver, a[i].elements, b[i].elements)
  }

  lemma AtSameLength(s: seq<byte>, o: nat, p: seq<byte>, q: seq<byte>)
    requires At(s, o, p) && At(s, o, q) && |p| == |q|
    ensures p == q
  {
  }

  /** The element has its place in the bytes: it is carried, and its size fits a size field. */
  ghost predicate Stands(ver: Version, s: seq<byte>, o: nat, e: Element) {
    Carries(ver, e) && |EncodeElement(ver, e)| <= U32_MAX && At(s, o, EncodeElement(ver, e))
  }

  lemma FieldWidths(n: u32)
    ensures |FinalField(V2, n)| == |PatchField(V2, n)| == 4 && FinalField(V2, n) == PatchField(V2, n)
    ensures |PatchField(V4, n)| == 5 && (|FinalField(V4, n)| == 5 <==> n > U16_MAX) && |FinalField(V4, n)| <= 5
    ensures n > U16_MAX ==> FinalField(V4, n) == PatchField(V4, n)
  {
    U32Exact(n);
    hide LE32, U32OfSize;
  }

  lemma RawNestedAlike(ver: Version, s: seq<byte>, o: nat, raw: Element, h: ElementHeader, children: seq<Element>)
    requires raw.Raw? && Stands(ver, s, o, raw) && Stands(ver, s, o, Nested(h, children))
    ensures RawLikeNested(ver, raw, h, children)
        && |EncodeElement(ver, raw)| == |EncodeElement(ver, Nested(h, children))|
  {
    hide EncodeElement, EncodeElements, At, ReadCount, ParseElement, ElementMatches, ElementFits, NestedHeaderSize,
         RawInRange, Shaped, Nestable, DataHeader, FinalField, PatchField, ElementMiddle, Carries;
    CarriesNested(ver, h, children);
    CarriesInRange(ver, raw);
    RawHead(ver, s, o, raw.name, raw.dataType, raw.count, raw.data);
    NestedHead(ver, s, o, h, children);
    var info := ParseElement(ver, s, o).value;
    ElementMatchesOne(s, info, DataHeader(raw.name, raw.dataType), h);
    NestedShape(ver, h, children);
    AtSameLength(s, info.dataStart, raw.data, EncodeElements(ver, children));
    RawShape(ver, raw.name, raw.dataType, raw.count, raw.data);
    FieldWidths(|EncodeElement(ver, raw)|);
    FieldWidths(raw.count);
  }

  lemma CarriesNested(ver: Version, h: ElementHeader, children: seq<Element>)
    requires Carries(ver, Nested(h, children))
    ensures ElementFits(ver, h) && Nestable(h.elementType) && forall c | c in children :: Carries(ver, c)
  {
  }

  /** Elements that stand at the same place are alike and end at the same place. */
  lemma {:induction false} ElementAlike(ver: Version, s: seq<byte>, o: nat, a: Element, b: Element)
    requires Stands(ver, s, o, a) && Stands(ver, s, o, b)
    ensures Alike(ver, a, b) && |EncodeElement(ver, a)| == |EncodeElement(ver, b)|
    decreases a, 1
  {
    hide EncodeElement, EncodeElements, At, ReadCount, ParseElement, ElementMatches, ElementFits, NestedHeaderSize,
         RawInRange, Shaped, Nestable, DataHeader, RawLikeNested, ElementInRange, Carries, AllAlike;
    CarriesInRange(ver, a);
    CarriesInRange(ver, b);
    ElementSizeRead(ver, s, o, a);
    ElementSizeRead(ver, s, o, b);
    match a
    case Raw(_, _, _, _) =>
      if b.Raw? {
        RawsEqual(ver, s, o, a, b);
      } else {
        RawNestedAlike(ver, s, o, a, b.header, b.children);
      }
    case Nested(h, children) =>
      if b.Raw? {
        RawNestedAlike(ver, s, o, b, h, children);
      } else {
        NestedsAlike(ver, s, o, h, children, b.header, b.children);
        ChildrenAlike(ver, s, ParseElement(ver, s, o).value.dataStart, children, b.children);
      }
  }

  lemma RawsEqual(ver: Version, s: seq<byte>, o: nat, a: Element, b: Element)
    requires a.Raw? && b.Raw? && Stands(ver, s, o, a) && Stands(ver, s, o, b)
    ensures a == b
  {
    hide EncodeElement, At, ReadCount, ParseElement, ElementMatches, RawInRange, Shaped, DataHeader;
    RawHead(ver, s, o, a.name, a.dataType, a.count, a.data);
    RawHead(ver, s, o, b.name, b.dataType, b.count, b.data);
    var info := ParseElement(ver, s, o).value;
    ElementMatchesOne(s, info, DataHeader(a.name, a.dataType), DataHeader(b.name, b.dataType));
    DataHeaderOne(a.name, a.dataType, b.name, b.dataType);
    AtSameLength(s, info.dataStart, a.data, b.data);
  }

  lemma DataHeaderOne(a: text, i: u16, b: text, j: u16)
    requires DataHeader(a, i) == DataHeader(b, j)
    ensures a == b && i == j
  {
  }

  lemma NestedsAlike(ver: Version, s: seq<byte>, o: nat, h: ElementHeader, a: seq<Element>, g: ElementHeader,
          b: seq<Element>)
    requires Stands(ver, s, o, Nested(h, a)) && Stands(ver, s, o, Nested(g, b))
    ensures h == g && |a| == |b| && ParseElement(ver, s, o).Ok?
    ensures var start := ParseElement(ver, s, o).value.dataStart;
            ChildrenStand(ver, s, start, a) && ChildrenStand(ver, s, start, b)
  {
    hide EncodeElement, EncodeElements, At, ReadCount, ParseElement, ElementMatches, ElementFits, NestedHeaderSize,
         Nestable, Carries;
    CarriesNested(ver, h, a);
    CarriesNested(ver, g, b);
    NestedHead(ver, s, o, h, a);
    NestedHead(ver, s, o, g, b);
    NestedShape(ver, h, a);
    NestedShape(ver, g, b);
    ElementMatchesOne(s, ParseElement(ver, s, o).value, h, g);
  }

  ghost predicate ChildrenStand(ver: Version, s: seq<byte>, o: nat, es: seq<Element>) {
    (forall e | e in es :: Carries(ver, e)) && |EncodeElements(ver, es)| <= U32_MAX && At(s, o, EncodeElements(ver, es))
  }

  lemma FirstStands(ver: Version, s: seq<byte>, o: nat, es: seq<Element>)
    requires ChildrenStand(ver, s, o, es) && es != []
    ensures Stands(ver, s, o, es[0]) && ChildrenStand(ver, s, o + |EncodeElement(ver, es[0])|, es[1..])
  {
    hide EncodeElement, EncodeElements, At, Carries;
    EncodeElementsCons(ver, es);
    AtSplit(s, o, EncodeElement(ver, es[0]), EncodeElements(ver, es[1..]));
  }

  lemma {:induction false} ChildrenAlike(ver: Version, s: seq<byte>, o: nat, a: seq<Element>, b: seq<Element>)
    requires ChildrenStand(ver, s, o, a) && ChildrenStand(ver, s, o, b) && |a| == |b|
    ensures AllAlike(ver, a, b)
    decreases a, 0
  {
    hide EncodeElement, ChildrenStand, Stands, Alike;
    if a != [] {
      FirstStands(ver, s, o, a);
      FirstStands(ver, s, o, b);
      ElementAlike(ver, s, o, a[0], b[0]);
      ChildrenAlike(ver, s, o + |EncodeElement(ver, a[0])|, a[1..], b[1..]);
      forall i | 0 <= i < |a| ensures Alike(ver, a[i], b[i]) {
        if i > 0 {
          assert a[i] == a[1..][i - 1] && b[i] == b[1..][i - 1];
        }
      }
    }
  }

  // ---- alike trees have the same bytes ----

  lemma RawLikeNestedSame(ver: Version, raw: Element, h: ElementHeader, children: seq<Element>)
    requires raw.Raw? && RawInRange(ver, raw.name, raw.count, |raw.data|) && RawLikeNested(ver, raw, h, children)
    requires |EncodeElement(ver, Nested(h, children))| <= U32_MAX
    ensures EncodeElement(ver, raw) == EncodeElement(ver, Nested(h, children))
  {
    hide EncodeElement, EncodeElements, NestedHeaderSize, RawInRange, DataHeader, FinalField, PatchField, ElementMiddle;
    RawShape(ver, raw.name, raw.dataType, raw.count, raw.data);
    NestedShape(ver, h, children);
    ElementsAtLeast(ver, children);
    var n, m := |EncodeElement(ver, raw)|, |EncodeElement(ver, Nested(h, children))|;
    FieldWidths(n);
    FieldWidths(m);
    FieldWidths(raw.count);
  }

  lemma {:induction false} AlikeSame(ver: Version, a: Element, b: Element)
    requires Alike(ver, a, b) && ElementInRange(ver, a) && ElementInRange(ver, b)
    requires |EncodeElement(ver, a)| <= U32_MAX && |EncodeElement(ver, b)| <= U32_MAX
    ensures EncodeElement(ver, a) == EncodeElement(ver, b)
    decreases a, 1
  {
    match a
    case Raw(_, _, _, _) =>
      if b.Nested? {
        hide EncodeElement, EncodeElements, RawLikeNested, RawInRange;
        RawLikeNestedSame(ver, a, b.header, b.children);
      }
    case Nested(h, children) =>
      if b.Raw? {
        hide EncodeElement, EncodeElements, RawLikeNested, RawInRange;
        RawLikeNestedSame(ver, b, h, children);
      } else {
        hide NestedHeaderBytes, NestedHeaderSize, EncodeElement, EncodeElements, AllAlike;
        NestedLength(ver, h, children);
        NestedLength(ver, h, b.children);
        AllAlikeSame(ver, children, b.children);
        NestedSame(ver, h, children, b.children);
      }
  }

  lemma NestedSame(ver: Version, h: ElementHeader, a: seq<Element>, b: seq<Element>)
    requires |a| == |b| && EncodeElements(ver, a) == EncodeElements(ver, b)
    ensures EncodeElement(ver, Nested(h, a)) == EncodeElement(ver, Nested(h, b))
  {
    hide NestedHeaderBytes, NestedHeaderSize, EncodeElements;
  }

  lemma {:induction false} AllAlikeSame(ver: Version, a: seq<Element>, b: seq<Element>)
    requires AllAlike(ver, a, b)
    requires (forall e | e in a :: ElementInRange(ver, e)) && forall e | e in b :: ElementInRange(ver, e)
    requires |EncodeElements(ver, a)| <= U32_MAX && |EncodeElements(ver, b)| <= U32_MAX
    ensures EncodeElements(ver, a) == EncodeElements(ver, b)
    decreases a, 0
  {
    hide EncodeElement, ElementInRange, Alike;
    if a != [] {
      EncodeElementsCons(ver, a);
      EncodeElementsCons(ver, b);
      AlikeSame(ver, a[0], b[0]);
      AllAlikeSame(ver, a[1..], b[1..]);
    }
  }

  /** Two carried elements have the same bytes if and only if they are alike. */
  lemma SameBytesIff(ver: Version, a: Element, b: Element)
    requires Carries(ver, a) && Carries(ver, b)
    requires |EncodeElement(ver, a)| <= U32_MAX && |EncodeElement(ver, b)| <= U32_MAX
    ensures EncodeElement(ver, a) == EncodeElement(ver, b) <==> Alike(ver, a, b)
  {
    hide EncodeElement, Carries, Alike, ElementInRange, Shaped;
    CarriesInRange(ver, a);
    CarriesInRange(ver, b);
    if EncodeElement(ver, a) == EncodeElement(ver, b) {
      ElementAlike(ver, EncodeElement(ver, a), 0, a, b);
    }
    if Alike(ver, a, b) {
      AlikeSame(ver, a, b);
    }
  }

  // ---- entries and messages ----

  ghost predicate EntriesStand(ver: Version, s: seq<byte>, o: nat, es: seq<Entry>) {
    && (forall e | e in es :: CarriesEntry(ver, e))
    && |EncodeEntries(ver, es)| <= U32_MAX && At(s, o, EncodeEntries(ver, es))
  }

  lemma EntryStands(ver: Version, s: seq<byte>, o: nat, es: seq<Entry>)
    requires EntriesStand(ver, s, o, es) && es != []
    ensures ReadCount(ver, s, o).Ok? && ReadCount(ver, s, o).value.0 == |EncodeEntry(ver, es[0])|
    ensures ParseEntry(ver, s, o).Ok?
    ensures var info := ParseEntry(ver, s, o).value;
            && EntryMatches(s, info, es[0].header) && info.elementCount == |es[0].elements|
            && ChildrenStand(ver, s, info.elementStart, es[0].elements)
    ensures EntriesStand(ver, s, o + |EncodeEntry(ver, es[0])|, es[1..])
  {
    hide EncodeEntry, EncodeEntries, EncodeElements, At, ParseEntry, ReadCount, EntryMatches, EntryFits, Carries,
         EntryHeaderSize;
    var e := es[0];
    assert e in es;
    EncodeEntriesCons(ver, es);
    AtSplit(s, o, EncodeEntry(ver, e), EncodeEntries(ver, es[1..]));
    EntryHead(ver, s, o, e);
    EntryShape(ver, e);
  }

  lemma {:induction false} EntriesAlike(ver: Version, s: seq<byte>, o: nat, a: seq<Entry>, b: seq<Entry>)
    requires EntriesStand(ver, s, o, a) && EntriesStand(ver, s, o, b) && |a| == |b|
    ensures AlikeEntries(ver, a, b)
    decreases a
  {
    hide EntriesStand, ChildrenStand, AllAlike, EncodeEntry, ReadCount, ParseEntry, EntryMatches;
    if a != [] {
      EntryStands(ver, s, o, a);
      EntryStands(ver, s, o, b);
      var info := ParseEntry(ver, s, o).value;
      EntryMatchesOne(s, info, a[0].header, b[0].header);
      ChildrenAlike(ver, s, info.elementStart, a[0].elements, b[0].elements);
      EntriesAlike(ver, s, o + |EncodeEntry(ver, a[0])|, a[1..], b[1..]);
      forall i | 0 <= i < |a| ensures a[i].header == b[i].header && AllAlike(ver, a[i].elements, b[i].elements) {
        if i > 0 {
          assert a[i] == a[1..][i - 1] && b[i] == b[1..][i - 1];
        }
      }
    }
  }

  lemma VisibleCount(ver: Version, mask: byte, m: Message)
    requires MessageAccepted(ver, mask, m, U32_MAX)
    ensures Visible(ver, mask, m).entryCount == |m.entries|
  {
    hide HeaderAccepted, EntryInRange, EncodeMessage;
  }

  /** The bytes mean one message: no encoding is a prefix of the encoding of a message that is
      not alike, apart from header fields that the format or the mask leaves out. */
  lemma EncodingUnambiguous(ver: Version, maskA: byte, a: Message, maskB: byte, b: Message, s: seq<byte>)
    requires MessageCarried(ver, maskA, a) && MessageCarried(ver, maskB, b)
    requires At(s, 0, EncodeMessage(ver, maskA, a)) && At(s, 0, EncodeMessage(ver, maskB, b))
    ensures Visible(ver, maskA, a) == Visible(ver, maskB, b)
    ensures AlikeEntries(ver, a.entries, b.entries)
  {
    hide At, EncodeMessage, EncodeEntries, CarriesEntry, EntryInRange, ParseMessage, MessageMatches, HeaderAccepted,
         HasMultiple, CheckMessage, Visible, MessageHeaderSize, CountsEntries, AlikeEntries;
    AtFits(s, 0, EncodeMessage(ver, maskA, a));
    AtFits(s, 0, EncodeMessage(ver, maskB, b));
    MessageHead(ver, maskA, a, s, |s|);
    MessageHead(ver, maskB, b, s, |s|);
    MessageMatchesOne(s, ParseMessage(s).value.1, Visible(ver, maskA, a), Visible(ver, maskB, b));
    VisibleCount(ver, maskA, a);
    VisibleCount(ver, maskB, b);
    MessageSizes(ver, maskA, a);
    MessageSizes(ver, maskB, b);
    EntriesAlike(ver, s, MessageHeaderSize(ver, a.header, maskA), a.entries, b.entries);
  }

  /** Where only nested elements have the container types, alike means equal. */
  lemma {:induction false} TypedAlike(ver: Version, a: Element, b: Element)
    requires Alike(ver, a, b) && Typed(a) && Typed(b)
    ensures a == b
    decreases a, 1
  {
    hide Nestable, EncodeElements, AllAlike;
    if a.Nested? && b.Nested? {
      AllTypedAlike(ver, a.children, b.children);
    }
  }

  lemma {:induction false} AllTypedAlike(ver: Version, a: seq<Element>, b: seq<Element>)
    requires AllAlike(ver, a, b) && (forall e | e in a :: Typed(e)) && forall e | e in b :: Typed(e)
    ensures a == b
    decreases a, 0
  {
    hide Alike, Typed;
    forall i | 0 <= i < |a| ensures a[i] == b[i] {
      TypedAlike(ver, a[i], b[i]);
    }
  }

  lemma TypedEntriesAlike(ver: Version, a: seq<Entry>, b: seq<Entry>)
    requires AlikeEntries(ver, a, b) && (forall e | e in a :: EntryTyped(e)) && forall e | e in b :: EntryTyped(e)
    ensures a == b
  {
    hide AllAlike, Typed;
    forall i | 0 <= i < |a| ensures a[i] == b[i] {
      assert a[i] in a && b[i] in b;
      AllTypedAlike(ver, a[i].elements, b[i].elements);
    }
  }

  /** The one confusion is real: in version 2 a list of one element and a raw element with the
      list type and the list's bytes as data are written alike. */
  lemma RawStandsAsList()
    ensures var list := Nested(DataHeader([], 108), [Raw([], 1, 0, [])]);
            var raw := Raw([], 108, 1, EncodeElements(V2, [Raw([], 1, 0, [])]));
            Carries(V2, list) && Carries(V2, raw) && raw != list && EncodeElement(V2, raw) == EncodeElement(V2, list)
  {
    var children := [Raw([], 1, 0, [])];
    var list, raw := Nested(DataHeader([], 108), children), Raw([], 108, 1, EncodeElements(V2, children));
    EncodeElementsSnoc(V2, [], children[0]);
    EncodeElementsCons(V2, children);
    RawLength(V2, [], 1, 0, []);
    NestedLength(V2, list.header, children);
    assert |EncodeElements(V2, children)| == 16;
    hide EncodeElement, EncodeElements;
    RawLikeNestedSame(V2, raw, list.header, children);
  }
}
