/** Window conservation: on any bytes whatever, walking the cursors keeps the windows of one
    level contiguous, disjoint and inside the window they were opened in. */
module Windows {
  import opened Base
  import opened Wire
  import opened Headers
  import opened MessageHeaders
  import opened Cursor

  function EntryEnd(c: EntryCursor): nat {
    c.off + c.count + c.remaining
  }

  function ElementEnd(c: ElementCursor): nat {
    c.off + c.count + c.remaining
  }

  /** The cursor after k successful steps. */
  function EntryAt(s: seq<byte>, c: EntryCursor, k: nat): Result<EntryCursor> {
    if k == 0 then Ok(c)
    else
      var p :- EntryAt(s, c, k - 1);
      EntryNext(s, p)
  }

  function ElementAt(s: seq<byte>, c: ElementCursor, k: nat): Result<ElementCursor> {
    if k == 0 then Ok(c)
    else
      var p :- ElementAt(s, c, k - 1);
      ElementNext(s, p)
  }

  /** The entry windows fill the reader's window to its end. */
  lemma EntriesFillWindow(s: seq<byte>, n: nat, ver: Version)
    ensures BeginEntries(s, n, ver).Ok? ==>
              var c := BeginEntries(s, n, ver).value;
              && ParseMessage(s).Ok? && c.off == ParseMessage(s).value.1.headerSize
              && EntryEnd(c) == n
  {
    hide ParseMessage, ReadCount;
  }

  lemma EntryStepKeepsEnd(s: seq<byte>, c: EntryCursor)
    ensures EntryNext(s, c).Ok? ==>
              var d := EntryNext(s, c).value;
              && EntryEnd(d) == EntryEnd(c) && d.off == c.off + c.count && d.current == c.current + 1
              && d.countOffset == c.countOffset && d.ver == c.ver
  {
    hide ReadCount, ReadCount2;
  }

  lemma ElementStepKeepsEnd(s: seq<byte>, c: ElementCursor)
    ensures ElementNext(s, c).Ok? ==>
              var d := ElementNext(s, c).value;
              && ElementEnd(d) == ElementEnd(c) && d.off == c.off + c.count && d.current == c.current + 1
              && d.total == c.total && d.ver == c.ver
  {
    hide ReadCount;
  }

  /** The element windows of an entry fill the entry's own window to its end. */
  lemma ElementsFillEntry(s: seq<byte>, c: EntryCursor)
    ensures BeginElements(s, c).Ok? ==>
              var d := BeginElements(s, c).value;
              && c.off < d.off && ElementEnd(d) == c.off + c.count
  {
    hide ParseEntry, ReadCount;
    ParseEntryAdvances(c.ver, s, c.off);
  }

  /** Along any run the end of the window stays put and each window starts where the one
      before it ended; so two different windows never overlap and none leaves the enclosing one. */
  lemma {:induction false} EntryWindowsDisjoint(s: seq<byte>, c: EntryCursor, j: nat, k: nat)
    requires j <= k && EntryAt(s, c, k).Ok?
    ensures EntryAt(s, c, j).Ok?
    ensures var p, q := EntryAt(s, c, j).value, EntryAt(s, c, k).value;
            && EntryEnd(p) == EntryEnd(q) == EntryEnd(c)
            && c.off <= p.off && q.current == c.current + k
            && (j < k ==> p.off + p.count <= q.off)
            && q.off + q.count <= EntryEnd(c)
    decreases k
  {
    hide EntryNext;
    if k > 0 {
      EntryStepKeepsEnd(s, EntryAt(s, c, k - 1).value);
      if j < k {
        EntryWindowsDisjoint(s, c, j, k - 1);
      } else {
        EntryWindowsDisjoint(s, c, k - 1, k - 1);
      }
    }
  }

  lemma {:induction false} ElementWindowsDisjoint(s: seq<byte>, c: ElementCursor, j: nat, k: nat)
    requires j <= k && ElementAt(s, c, k).Ok?
    ensures ElementAt(s, c, j).Ok?
    ensures var p, q := ElementAt(s, c, j).value, ElementAt(s, c, k).value;
            && ElementEnd(p) == ElementEnd(q) == ElementEnd(c)
            && c.off <= p.off && q.current == c.current + k
            && (j < k ==> p.off + p.count <= q.off)
            && q.off + q.count <= ElementEnd(c)
    decreases k
  {
    hide ElementNext;
    if k > 0 {
      ElementStepKeepsEnd(s, ElementAt(s, c, k - 1).value);
      if j < k {
        ElementWindowsDisjoint(s, c, j, k - 1);
      } else {
        ElementWindowsDisjoint(s, c, k - 1, k - 1);
      }
    }
  }

  /** Every run of elements stays inside the entry it belongs to. */
  lemma ElementsStayInEntry(s: seq<byte>, c: EntryCursor, k: nat)
    requires BeginElements(s, c).Ok? && ElementAt(s, BeginElements(s, c).value, k).Ok?
    ensures var q := ElementAt(s, BeginElements(s, c).value, k).value;
            c.off < q.off && q.off + q.count <= c.off + c.count
  {
    hide BeginElements, ElementAt;
    ElementsFillEntry(s, c);
    ElementWindowsDisjoint(s, BeginElements(s, c).value, 0, k);
  }

  lemma WrappedRoom(count: u32, headerSize: nat, size: nat)
    requires 0 < headerSize < SIZE_MODULUS
    ensures headerSize <= count ==> SizeSub(count, headerSize) == count - headerSize
    ensures headerSize > count ==> SizeSub(count, headerSize) == count - headerSize + SIZE_MODULUS
    ensures size <= SizeSub(count, headerSize)
        ==> SizeSub(SizeSub(count, headerSize), size) == SizeSub(count, headerSize) - size
  {
  }

  /** Nested windows are the exception, because their arithmetic is on the wrapping size type:
      they fill the enclosing window exactly when the element's header fits that window. */
  lemma NestedFillsIff(s: seq<byte>, c: ElementCursor)
    requires c.count <= U32_MAX && |s| < SIZE_MODULUS
    requires BeginNested(s, c).Ok?
    ensures ParseElement(c.ver, s, c.off).Ok?
    ensures var d, start := BeginNested(s, c).value, ParseElement(c.ver, s, c.off).value.dataStart;
            && c.off < d.off == start
            && (start - c.off <= c.count <==> ElementEnd(d) == c.off + c.count)
            && (start - c.off > c.count <==> ElementEnd(d) == c.off + c.count + SIZE_MODULUS)
  {
    hide ParseElement, ReadCount, SizeSub, IsContainer;
    ParseElementAdvances(c.ver, s, c.off);
    var start := ParseElement(c.ver, s, c.off).value.dataStart;
    SizeSubExact(start, c.off);
    WrappedRoom(c.count, start - c.off, BeginNested(s, c).value.count);
  }

  const BLANK_ENTRY := EntryHeader(0, [], 0, [], 0, 0, 0, [])

  const BLANK_CONTAINER := ElementHeader([], 0, 0, 101, [], 0, [])

  const BLANK_HEADER := MessageHeader(NODEID_ANY, NODEID_ANY, 0, 0, 0, [], [], [], 1, 0, 0)

  /** A version 2 message of 106 bytes. Its one entry of 23 bytes has one element, which gives its size
      as 1 although its header alone takes 16 bytes; behind it stands the size field of a child. */
  function ShortElement(): seq<byte> {
    MessageHeader2Bytes(BLANK_HEADER, 106, 1) + EntryHeaderBytes(V2, BLANK_ENTRY, 23, 1)
    + (ElementHeaderBytes(V2, BLANK_CONTAINER, LE32(1), LE32(1)) + LE32(200))
  }

  lemma ShortElementBytes()
    ensures HeaderSize2(BLANK_HEADER) == |MessageHeader2Bytes(BLANK_HEADER, 106, 1)| == 64
    ensures |EntryHeaderBytes(V2, BLANK_ENTRY, 23, 1)| == 22
    ensures |ElementHeaderBytes(V2, BLANK_CONTAINER, LE32(1), LE32(1))| == 16
    ensures var s := ShortElement();
            && |s| == 106 && At(s, 0, MessageHeader2Bytes(BLANK_HEADER, 106, 1))
            && At(s, 64, EntryHeaderBytes(V2, BLANK_ENTRY, 23, 1)) && At(s, 64, LE32(23))
            && At(s, 86, ElementHeaderBytes(V2, BLANK_CONTAINER, LE32(1), LE32(1))) && At(s, 86, LE32(1))
            && At(s, 102, LE32(200))
  {
    hide At, LE16, LE32, MessageHeader2Bytes;
    var s := ShortElement();
    var header, entry := MessageHeader2Bytes(BLANK_HEADER, 106, 1), EntryHeaderBytes(V2, BLANK_ENTRY, 23, 1);
    var element := ElementHeaderBytes(V2, BLANK_CONTAINER, LE32(1), LE32(1));
    Header2Length(BLANK_HEADER, 106, 1);
    AtWhole(s);
    AtSplit3(s, 0, header, entry, element + LE32(200));
    U32Exact(23);
    AtSplit3(s, 64, LE32(23), EntryMiddle(V2, BLANK_ENTRY), EntryCountField(V2, 1));
    AtSplit(s, 86, element, LE32(200));
    AtSplit3(s, 86, LE32(1), ElementMiddle(V2, BLANK_CONTAINER), LE32(1));
  }

  lemma AtWhole(s: seq<byte>)
    ensures At(s, 0, s)
  {
  }

  /** The message is accepted and its header read. */
  lemma ShortElementHeader()
    ensures CheckMessage(ShortElement(), 106) == Success && ParseMessage(ShortElement()).Ok?
    ensures var (ver, info) := ParseMessage(ShortElement()).value;
            ver == V2 && info.headerSize == 64 && info.entryCount == 1 && info.entryCountOffset == Some(58)
  {
    ShortElementBytes();
    hide At, ShortElement, ParseMessage2, MessageHeader2Bytes, LE16, LE32, GetLE32, Middle2Pieces, Holds;
    var s := ShortElement();
    Message2Parses(s, 0, BLANK_HEADER, 106, 1);
    Message2Splits(s, 0, BLANK_HEADER, 106, 1);
    VersionRead(s);
    U32Exact(106);
    TagAndSize(s);
  }

  lemma VersionRead(s: seq<byte>)
    requires Middle2Pieces(s, 8, BLANK_HEADER)
    ensures ReadU16(s, 8) == Ok((2, 10))
  {
    hide At, ReadU16, LE16, LE32, Str2;
    ReadU16At(s, 8, 2);
  }

  lemma TagAndSize(s: seq<byte>)
    requires |s| == 106 && At(s, 0, RRAC) && At(s, 4, LE32(106))
    ensures CheckMessage(s, 106) == Success
  {
    LE32RoundTrip(106);
    hide LE32, GetLE32;
    assert s[0..4] == s[..4];
  }

  /** A failing input: from the message reader through the entry to its element every window is inside
      the buffer of 106 bytes, and yet the nested window is 102 to 302 and reports all but nothing of
      the size type as remaining. */
  lemma NestedEscapes()
    ensures |ShortElement()| == 106 && CheckMessage(ShortElement(), 106) == Success
    ensures BeginEntries(ShortElement(), 106, V2) == Ok(EntryCursor(V2, 64, 23, 19, Some(58), 0))
    ensures BeginElements(ShortElement(), EntryCursor(V2, 64, 23, 19, Some(58), 0))
         == Ok(ElementCursor(V2, 86, 1, 0, 0, 1))
    ensures BeginNested(ShortElement(), ElementCursor(V2, 86, 1, 0, 0, 1))
         == Ok(ElementCursor(V2, 102, 200, SIZE_MODULUS - 215, 0, 1))
  {
    ShortElementBytes();
    ShortElementHeader();
    hide At, ShortElement, ElementHeaderBytes, EntryHeaderBytes, EntryMatches, LE32, ParseMessage, ParseEntry,
         ParseElement, ReadU32, IsCountField, SizeSub, CheckMessage;
    var s := ShortElement();
    ReadU32At(s, 64, 23);
    EntryParses(V2, s, 64, BLANK_ENTRY, 23, 1);
    OneIsOne();
    ElementParses(V2, s, 86, BLANK_CONTAINER, LE32(1), LE32(1), 1, 1);
    ReadU32At(s, 86, 1);
    ReadU32At(s, 102, 200);
    SizeSubExact(102, 86);
    SizeSubWraps();
  }

  lemma OneIsOne()
    ensures IsCountField(V2, LE32(1), 1)
  {
  }

  lemma SizeSubWraps()
    ensures SizeSub(1, 16) == SIZE_MODULUS - 15 && SizeSub(SIZE_MODULUS - 15, 200) == SIZE_MODULUS - 215
  {
  }
}
