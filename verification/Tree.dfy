/** A whole message as a value, and the pure encoder that fixes its bytes. */
module Tree {
  import opened Base
  import opened Wire
  import opened Headers
  import opened MessageHeaders

  /** An element either carries raw data or encloses further elements. */
  datatype Element =
    | Raw(name: text, dataType: u16, count: u32, data: text)
    | Nested(header: ElementHeader, children: seq<Element>)

  datatype Entry = Entry(header: EntryHeader, elements: seq<Element>)

  datatype Message = Message(header: MessageHeader, entries: seq<Entry>)

  // ---- element types ----

  const STRUCTURE: u16 := 101
  const MAP_INT32: u16 := 102
  const MAP_STRING: u16 := 103
  const LIST: u16 := 108
  const POD: u16 := 109
  const POD_ARRAY: u16 := 110
  const POD_MULTIDIMARRAY: u16 := 111
  const NAMEDARRAY_ARRAY: u16 := 115
  const NAMEDARRAY_MULTIDIMARRAY: u16 := 116
  const MULTIDIMARRAY: u16 := 117

  /** The types whose elements consist of further elements; all others carry data. */
  predicate Nestable(elementType: u16) {
    || elementType == STRUCTURE || elementType == MAP_INT32 || elementType == MAP_STRING || elementType == LIST
    || elementType == MULTIDIMARRAY || elementType == POD || elementType == POD_ARRAY
    || elementType == POD_MULTIDIMARRAY || elementType == NAMEDARRAY_ARRAY
    || elementType == NAMEDARRAY_MULTIDIMARRAY
  }

  // ---- elements ----

  function LenWidth(n: nat): nat {
    if n <= 251 then 1 else if n <= U16_MAX - 3 then 3 else 5
  }

  /** Version 4 raw elements: everything but the length field. */
  function RawRest4(nameLen: nat, count: u32, dataLen: nat): nat
    requires nameLen <= U32_MAX
  {
    3 + (if nameLen != 0 then UintXSize(nameLen) + nameLen else 0) + UintXSize(count) + dataLen
  }

  /** The size that write_raw computes before it writes anything. */
  function RawTotal(ver: Version, nameLen: nat, count: u32, dataLen: nat): nat
    requires nameLen <= U32_MAX
  {
    if ver == V2 then 16 + nameLen + dataLen
    else var n := RawRest4(nameLen, count, dataLen); n + LenWidth(n)
  }

  function RawHeaderBytes(ver: Version, name: text, dataType: u16, count: u32, dataLen: nat): seq<byte> {
    ElementHeaderBytes(ver, DataHeader(name, dataType),
        FinalField(ver, U32OfSize(RawTotal(ver, |name|, count, dataLen))), FinalField(ver, count))
  }

  function NestedHeaderBytes(ver: Version, h: ElementHeader, size: nat, count: nat): seq<byte> {
    ElementHeaderBytes(ver, h, PatchField(ver, size), PatchField(ver, count))
  }

  function NestedHeaderSize(ver: Version, h: ElementHeader): nat {
    |NestedHeaderBytes(ver, h, 0, 0)|
  }

  function EncodeElement(ver: Version, e: Element): seq<byte>
    decreases e, 1
  {
    match e
    case Raw(name, dataType, count, data) => RawHeaderBytes(ver, name, dataType, count, |data|) + data
    case Nested(h, children) =>
      var body := EncodeElements(ver, children);
      NestedHeaderBytes(ver, h, NestedHeaderSize(ver, h) + |body|, |children|) + body
  }

  function EncodeElements(ver: Version, es: seq<Element>): seq<byte>
    decreases es, 0
  {
    if es == [] then [] else EncodeElement(ver, es[0]) + EncodeElements(ver, es[1..])
  }

  /** The raw sizes that fit the wire; everything else is rejected before writing. */
  predicate RawInRange(ver: Version, name: text, count: nat, dataLen: nat) {
    && count <= U32_MAX
    && (ver == V2 ==> |name| <= U16_MAX)
    && RawTotal(ver, |name|, count, dataLen) <= U32_MAX
  }

  /** Only what the length fields cannot hold is refused: in version 2 a name over 65535 bytes, and in both
      an item count or an element over 4294967295. */
  lemma RawFits(name: text, count: nat, dataLen: nat)
    ensures RawInRange(V2, name, count, dataLen)
       <==> |name| <= 0xFFFF && count <= 0xFFFF_FFFF && 16 + |name| + dataLen <= 0xFFFF_FFFF
    ensures count <= 0xFFFF_FFFF ==>
              var rest := 3 + (if name == [] then 0 else |UintX(|name|)| + |name|) + |UintX(count)| + dataLen;
              RawInRange(V4, name, count, dataLen) <==> rest <= 0xFFFF_FFFA
    ensures count > 0xFFFF_FFFF ==> !RawInRange(V4, name, count, dataLen)
  {
    hide LE16, LE32;
  }

  /** Message headers in the same way: 16-bit fields in version 2, and room for the length field itself in
      version 4. */
  lemma HeaderFits(h: MessageHeader, mask: byte)
    ensures HeaderAccepted(V2, h, mask)
       <==> 64 + |h.senderName| + |h.receiverName| + |h.metadata| <= 0xFFFF && h.entryCount <= 0xFFFF
    ensures HeaderAccepted(V4, h, mask) <==> PredictedSize4(h, mask) <= 0xFFFF_FFFA
  {
    hide PredictedSize4;
  }

  /** The size write_raw predicts is the size it writes. */
  lemma RawLength(ver: Version, name: text, dataType: u16, count: u32, data: text)
    requires RawInRange(ver, name, count, |data|)
    ensures |EncodeElement(ver, Raw(name, dataType, count, data))| == RawTotal(ver, |name|, count, |data|)
  {
    hide LE16, LE32, UintX, Str2, StrX, ElementFlags;
    if ver == V4 {
      SelfCounting(RawRest4(|name|, count, |data|));
    }
  }

  lemma NestedLength(ver: Version, h: ElementHeader, children: seq<Element>)
    ensures |EncodeElement(ver, Nested(h, children))| == NestedHeaderSize(ver, h) + |EncodeElements(ver, children)|
  {
    hide ElementMiddle, PatchField;
  }

  lemma {:induction false} EncodeElementsConcat(ver: Version, a: seq<Element>, b: seq<Element>)
    ensures EncodeElements(ver, a + b) == EncodeElements(ver, a) + EncodeElements(ver, b)
  {
    hide EncodeElement;
    if a == [] {
      assert a + b == b;
    } else {
      assert (a + b)[0] == a[0] && (a + b)[1..] == a[1..] + b;
      EncodeElementsConcat(ver, a[1..], b);
      ConcatAssoc(EncodeElement(ver, a[0]), EncodeElements(ver, a[1..]), EncodeElements(ver, b));
    }
  }

  lemma EncodeElementsCons(ver: Version, es: seq<Element>)
    requires es != []
    ensures EncodeElements(ver, es) == EncodeElement(ver, es[0]) + EncodeElements(ver, es[1..])
  {
  }

  lemma EncodeElementsSnoc(ver: Version, es: seq<Element>, e: Element)
    ensures EncodeElements(ver, es + [e]) == EncodeElements(ver, es) + EncodeElement(ver, e)
  {
    EncodeElementsConcat(ver, es, [e]);
    assert EncodeElements(ver, [e]) == EncodeElement(ver, e) + EncodeElements(ver, []) == EncodeElement(ver, e);
  }

  // ---- entries ----

  function EntryHeaderSize(ver: Version, h: EntryHeader): nat {
    |EntryHeaderBytes(ver, h, 0, 0)|
  }

  function EncodeEntry(ver: Version, e: Entry): seq<byte> {
    var body := EncodeElements(ver, e.elements);
    EntryHeaderBytes(ver, e.header, EntryHeaderSize(ver, e.header) + |body|, |e.elements|) + body
  }

  function EncodeEntries(ver: Version, es: seq<Entry>): seq<byte> {
    if es == [] then [] else EncodeEntry(ver, es[0]) + EncodeEntries(ver, es[1..])
  }

  lemma {:induction false} EncodeEntriesConcat(ver: Version, a: seq<Entry>, b: seq<Entry>)
    ensures EncodeEntries(ver, a + b) == EncodeEntries(ver, a) + EncodeEntries(ver, b)
  {
    hide EncodeEntry;
    if a == [] {
      assert a + b == b;
    } else {
      assert (a + b)[0] == a[0] && (a + b)[1..] == a[1..] + b;
      EncodeEntriesConcat(ver, a[1..], b);
      ConcatAssoc(EncodeEntry(ver, a[0]), EncodeEntries(ver, a[1..]), EncodeEntries(ver, b));
    }
  }

  lemma EncodeEntriesCons(ver: Version, es: seq<Entry>)
    requires es != []
    ensures EncodeEntries(ver, es) == EncodeEntry(ver, es[0]) + EncodeEntries(ver, es[1..])
  {
  }

  lemma EncodeEntriesSnoc(ver: Version, es: seq<Entry>, e: Entry)
    ensures EncodeEntries(ver, es + [e]) == EncodeEntries(ver, es) + EncodeEntry(ver, e)
  {
    EncodeEntriesConcat(ver, es, [e]);
    assert EncodeEntries(ver, [e]) == EncodeEntry(ver, e) + EncodeEntries(ver, []) == EncodeEntry(ver, e);
  }

  lemma EntryLength(ver: Version, e: Entry)
    ensures |EncodeEntry(ver, e)| == EntryHeaderSize(ver, e.header) + |EncodeElements(ver, e.elements)|
  {
    hide EntryMiddle, PatchField, EntryCountField;
  }

  // ---- messages ----

  predicate HeaderAccepted(ver: Version, h: MessageHeader, mask: byte) {
    if ver == V2 then Header2InRange(h) else HeaderSize4(h, mask).Ok?
  }

  function MessageHeaderSize(ver: Version, h: MessageHeader, mask: byte): nat
    requires HeaderAccepted(ver, h, mask)
  {
    if ver == V2 then HeaderSize2(h) else HeaderSize4(h, mask).value
  }

  function MessageHeaderBytes(ver: Version, h: MessageHeader, mask: byte, size: nat, count: nat): seq<byte>
    requires HeaderAccepted(ver, h, mask)
  {
    if ver == V2 then MessageHeader2Bytes(h, size, count) else MessageHeader4Bytes(h, mask, size, count)
  }

  function EncodeMessage(ver: Version, mask: byte, m: Message): seq<byte>
    requires HeaderAccepted(ver, m.header, mask)
  {
    var body := EncodeEntries(ver, m.entries);
    MessageHeaderBytes(ver, m.header, mask, MessageHeaderSize(ver, m.header, mask) + |body|, |m.entries|) + body
  }

  lemma MessageHeaderLength(ver: Version, h: MessageHeader, mask: byte, size: nat, count: nat)
    requires HeaderAccepted(ver, h, mask)
    ensures |MessageHeaderBytes(ver, h, mask, size, count)| == MessageHeaderSize(ver, h, mask)
  {
    if ver == V2 {
      Header2Length(h, size, count);
    } else {
      Header4SizeExact(h, mask, size, count);
    }
  }

  /** Conservation: a message is exactly as long as its header plus the sum of its entries. */
  lemma MessageLength(ver: Version, mask: byte, m: Message)
    requires HeaderAccepted(ver, m.header, mask)
    ensures |EncodeMessage(ver, mask, m)| == MessageHeaderSize(ver, m.header, mask) + SumOfEntries(ver, m.entries)
  {
    MessageHeaderLength(ver, m.header, mask, MessageHeaderSize(ver, m.header, mask) + |EncodeEntries(ver, m.entries)|,
        |m.entries|);
    EntriesLength(ver, m.entries);
  }

  function SumOfEntries(ver: Version, es: seq<Entry>): nat {
    if es == [] then 0
    else EntryHeaderSize(ver, es[0].header) + SumOfElements(ver, es[0].elements) + SumOfEntries(ver, es[1..])
  }

  function SumOfElements(ver: Version, es: seq<Element>): nat {
    if es == [] then 0 else |EncodeElement(ver, es[0])| + SumOfElements(ver, es[1..])
  }

  lemma {:induction false} ElementsLength(ver: Version, es: seq<Element>)
    ensures |EncodeElements(ver, es)| == SumOfElements(ver, es)
  {
    if es != [] {
      ElementsLength(ver, es[1..]);
    }
  }

  lemma {:induction false} EntriesLength(ver: Version, es: seq<Entry>)
    ensures |EncodeEntries(ver, es)| == SumOfEntries(ver, es)
  {
    if es != [] {
      EntryLength(ver, es[0]);
      ElementsLength(ver, es[0].elements);
      EntriesLength(ver, es[1..]);
    }
  }
}
