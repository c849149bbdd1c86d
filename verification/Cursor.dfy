/** The readers of message.c as functions on the bytes: a cursor is a window on one entry or
    element plus what remains behind it, and every step re-parses the header under it. */
module Cursor {
  import opened Base
  import opened Wire
  import opened Headers
  import opened MessageHeaders

  datatype EntryCursor = EntryCursor(ver: Version, off: nat, count: nat, remaining: nat, countOffset: Option<nat>,
          current: nat)

  datatype ElementCursor = ElementCursor(ver: Version, off: nat, count: nat, remaining: nat, current: nat, total: nat)

  /** reader_init with offset 0: the window must lie in the buffer and hold the announced message. */
  function CheckMessage(s: seq<byte>, n: nat): Status {
    if |s| < n || n < 10 then OutOfRange
    else if s[..4] != RRAC then Protocol
    else if n < GetLE32(s[4..8]) then OutOfRange
    else Success
  }

  function ParseMessage(s: seq<byte>): Result<(Version, MessageInfo)> {
    var (version, _) :- ReadU16(s, 8);
    if version == 2 then
      var info :- ParseMessage2(s, 0);
      Ok((V2, info))
    else if version == 4 then
      var info :- ParseMessage4(s, 0);
      Ok((V4, info))
    else Err(Protocol)
  }

  /** begin_read_entries on a window of n bytes at offset 0, for a reader whose version is ver. */
  function BeginEntries(s: seq<byte>, n: nat, ver: Version): Result<EntryCursor> {
    var (_, info) :- ParseMessage(s);
    var o := info.headerSize;
    var (size, _) :- ReadCount(ver, s, o);
    if o + size > n then Err(Protocol)
    else Ok(EntryCursor(ver, o, size, n - o - size, info.entryCountOffset, 0))
  }

  function EntryNext(s: seq<byte>, c: EntryCursor): Result<EntryCursor> {
    match c.countOffset
    case None => Err(NoMore)
    case Some(at) =>
      var (entryCount, _) :- ReadCount2(c.ver, s, at);
      if c.current + 1 >= entryCount then Err(NoMore)
      else
        var (size, _) :- ReadCount(c.ver, s, c.off + c.count);
        if c.remaining < size then Err(Protocol)
        else Ok(c.(off := c.off + c.count, count := size, remaining := c.remaining - size, current := c.current + 1))
  }

  function BeginElements(s: seq<byte>, c: EntryCursor): Result<ElementCursor> {
    var info :- ParseEntry(c.ver, s, c.off);
    if info.elementCount == 0 then Err(NoMore)
    else
      var o := info.elementStart;
      var (size, _) :- ReadCount(c.ver, s, o);
      if o - c.off + size > c.count then Err(Protocol)
      else Ok(ElementCursor(c.ver, o, size, c.count - (o - c.off) - size, 0, info.elementCount))
  }

  function ElementNext(s: seq<byte>, c: ElementCursor): Result<ElementCursor> {
    if c.current + 1 >= c.total then Err(NoMore)
    else
      var (size, _) :- ReadCount(c.ver, s, c.off + c.count);
      if c.remaining < size then Err(Protocol)
      else Ok(c.(off := c.off + c.count, count := size, remaining := c.remaining - size, current := c.current + 1))
  }

  /** The element types that enclose further elements. */
  predicate IsContainer(elementType: u16) {
    elementType in {101, 102, 103, 108, 117, 109, 110, 111, 115, 116}
  }

  /** The window arithmetic is on the wrapping size type. */
  function BeginNested(s: seq<byte>, c: ElementCursor): Result<ElementCursor> {
    var info :- ParseElement(c.ver, s, c.off);
    if !IsContainer(info.elementType) then Err(TypeMismatch)
    else if info.dataCount == 0 then Err(NoMore)
    else
      var (size, _) :- ReadCount(c.ver, s, info.dataStart);
      var headerSize := SizeSub(info.dataStart, c.off);
      if SizeSub(c.count, headerSize) < size then Err(Protocol)
      else Ok(ElementCursor(c.ver, info.dataStart, size, SizeSub(SizeSub(c.count, headerSize), size), 0,
          info.dataCount))
  }

  /** read_data_ex into caller storage of destLen items: the data bytes and the item count. */
  function ReadData(s: seq<byte>, c: ElementCursor, dataType: u16, elemSize: nat,
          destLen: nat): Result<(seq<byte>, u32)> {
    var info :- ParseElement(c.ver, s, c.off);
    var n := elemSize * info.dataCount;
    if info.elementType != dataType then Err(TypeMismatch)
    else if elemSize != 0 && n != SizeSub(info.elementSize, SizeSub(info.dataStart, c.off)) then Err(Protocol)
    else if info.dataCount == 0 then Ok(([], 0))
    else if info.dataStart >= |s| || info.dataStart + n > |s| || destLen < info.dataCount then Err(OutOfRange)
    else Ok((s[info.dataStart..info.dataStart + n], info.dataCount))
  }

  /** The checks in their order: room, the tag, the announced length. */
  lemma CheckFails(s: seq<byte>, n: nat)
    ensures CheckMessage(s, n) == Success <==> 10 <= n <= |s| && s[..4] == RRAC && GetLE32(s[4..8]) <= n
    ensures CheckMessage(s, n) == Protocol <==> 10 <= n <= |s| && s[..4] != RRAC
    ensures CheckMessage(s, n) in {Success, Protocol, OutOfRange}
  {
    hide GetLE32;
  }

  // ---- headers never point backwards ----

  lemma ParseElementAdvances(ver: Version, s: seq<byte>, o: nat)
    ensures ParseElement(ver, s, o).Ok? ==> o < ParseElement(ver, s, o).value.dataStart <= |s|
  {
    hide ReadU8, ReadU16, ReadU32, ReadUintX, ReadStr2, OptStr, OptUintX, OptIntX, OptU16, OptSkip, HasFlag;
  }

  lemma ParseEntryAdvances(ver: Version, s: seq<byte>, o: nat)
    ensures ParseEntry(ver, s, o).Ok? ==> o < ParseEntry(ver, s, o).value.elementStart <= |s|
  {
    hide ReadU8, ReadU16, ReadU32, ReadUintX, ReadStr2, OptStr, OptUintX, OptIntX, OptU16, OptSkip, HasFlag;
  }

  // ---- how headers fail ----

  /** The two ways in which a field cannot be read. */
  predicate Unreadable(e: Status) {
    e == OutOfRange || e == Protocol
  }

  lemma FieldsFail(s: seq<byte>, o: nat)
    ensures ReadU8(s, o).Err? ==> Unreadable(ReadU8(s, o).status)
    ensures ReadU16(s, o).Err? ==> Unreadable(ReadU16(s, o).status)
    ensures ReadU32(s, o).Err? ==> Unreadable(ReadU32(s, o).status)
    ensures ReadStr2(s, o).Err? ==> Unreadable(ReadStr2(s, o).status)
    ensures ReadUintX(s, o).Err? ==> Unreadable(ReadUintX(s, o).status)
  {
    hide GetLE16, GetLE32;
  }

  lemma OptionalFieldsFail(s: seq<byte>, o: nat, c: bool)
    ensures OptStr(c, s, o).Err? ==> Unreadable(OptStr(c, s, o).status)
    ensures OptUintX(c, s, o).Err? ==> Unreadable(OptUintX(c, s, o).status)
    ensures OptIntX(c, s, o).Err? ==> Unreadable(OptIntX(c, s, o).status)
    ensures OptSkip(c, s, o).Err? ==> Unreadable(OptSkip(c, s, o).status)
  {
    hide GetLE16, GetLE32, Signed;
  }

  lemma ReadCountFails(ver: Version, s: seq<byte>, o: nat)
    ensures ReadCount(ver, s, o).Err? ==> Unreadable(ReadCount(ver, s, o).status)
  {
    hide ReadU32, ReadUintX;
    FieldsFail(s, o);
  }

  lemma ParseElementFails(ver: Version, s: seq<byte>, o: nat)
    ensures ParseElement(ver, s, o).Err? ==> Unreadable(ParseElement(ver, s, o).status)
  {
    hide ReadU8, ReadU16, ReadU32, ReadUintX, ReadStr2, OptStr, OptUintX, OptIntX, OptSkip, HasFlag, Unreadable;
    forall p: nat
      ensures ReadU8(s, p).Err? ==> Unreadable(ReadU8(s, p).status)
      ensures ReadU16(s, p).Err? ==> Unreadable(ReadU16(s, p).status)
      ensures ReadU32(s, p).Err? ==> Unreadable(ReadU32(s, p).status)
      ensures ReadStr2(s, p).Err? ==> Unreadable(ReadStr2(s, p).status)
      ensures ReadUintX(s, p).Err? ==> Unreadable(ReadUintX(s, p).status)
    {
      FieldsFail(s, p);
    }
    forall p: nat, c: bool
      ensures OptStr(c, s, p).Err? ==> Unreadable(OptStr(c, s, p).status)
      ensures OptUintX(c, s, p).Err? ==> Unreadable(OptUintX(c, s, p).status)
      ensures OptIntX(c, s, p).Err? ==> Unreadable(OptIntX(c, s, p).status)
      ensures OptSkip(c, s, p).Err? ==> Unreadable(OptSkip(c, s, p).status)
    {
      OptionalFieldsFail(s, p, c);
    }
  }

  lemma ReadCount2Fails(ver: Version, s: seq<byte>, o: nat)
    ensures ReadCount2(ver, s, o).Err? ==> Unreadable(ReadCount2(ver, s, o).status)
  {
    hide GetLE16, GetLE32;
  }

  // ---- how steps end, on any bytes ----

  /** Only versions 2 and 4 are read. */
  lemma VersionDecides(s: seq<byte>)
    ensures |s| < 10 ==> ParseMessage(s) == Err(OutOfRange)
    ensures |s| >= 10 && GetLE16(s[8..10]) !in {2, 4} ==> ParseMessage(s) == Err(Protocol)
    ensures ParseMessage(s).Ok? ==>
              |s| >= 10 && GetLE16(s[8..10]) == if ParseMessage(s).value.0 == V2 then 2 else 4
  {
    hide ParseMessage2, ParseMessage4, GetLE16;
  }

  /** What is announced behind a window either lies within what remains, or is refused. */
  function Behind(s: seq<byte>, ver: Version, o: nat, remaining: nat): Result<u32> {
    var (size, _) :- ReadCount(ver, s, o);
    if size > remaining then Err(Protocol) else Ok(size)
  }

  /** The next entry: the end if and only if no more are counted; otherwise the announced window right
      behind, as far as there is room for it. */
  lemma EntryNextOutcome(s: seq<byte>, c: EntryCursor)
    ensures c.countOffset == None ==> EntryNext(s, c) == Err(NoMore)
    ensures c.countOffset.Some? ==>
              var counted := ReadCount2(c.ver, s, c.countOffset.value);
              var next := Behind(s, c.ver, c.off + c.count, c.remaining);
              && (counted.Err? ==> EntryNext(s, c).Err? && EntryNext(s, c).status == counted.status != NoMore)
              && (counted.Ok? ==> (EntryNext(s, c) == Err(NoMore) <==> c.current + 1 >= counted.value.0))
              && (counted.Ok? && c.current + 1 < counted.value.0 ==>
                    if next.Err? then EntryNext(s, c).Err? && EntryNext(s, c).status == next.status
                    else EntryNext(s, c).Ok? && EntryNext(s, c).value.count == next.value)
  {
    if c.countOffset.Some? {
      ReadCount2Fails(c.ver, s, c.countOffset.value);
    }
    ReadCountFails(c.ver, s, c.off + c.count);
    hide ReadCount, ReadCount2;
  }

  /** The next element in the same way. */
  lemma ElementNextOutcome(s: seq<byte>, c: ElementCursor)
    ensures ElementNext(s, c) == Err(NoMore) <==> c.current + 1 >= c.total
    ensures c.current + 1 < c.total ==>
              var next := Behind(s, c.ver, c.off + c.count, c.remaining);
              if next.Err? then ElementNext(s, c).Err? && ElementNext(s, c).status == next.status
              else ElementNext(s, c).Ok? && ElementNext(s, c).value.count == next.value
  {
    ReadCountFails(c.ver, s, c.off + c.count);
    hide ReadCount;
  }

  /** Data of another type is refused as such, data whose length is not that of the items as a protocol
      error, and data that is not there or has no room in the caller's storage for range; otherwise exactly
      the data bytes are read. */
  lemma ReadDataOutcome(s: seq<byte>, c: ElementCursor, dataType: u16, elemSize: nat, destLen: nat)
    ensures var h, r := ParseElement(c.ver, s, c.off), ReadData(s, c, dataType, elemSize, destLen);
            && (h.Err? ==> r.Err? && r.status == h.status)
            && (r == Err(TypeMismatch) <==> h.Ok? && h.value.elementType != dataType)
            && (h.Ok? && h.value.elementType == dataType ==>
                  var count, start, n := h.value.dataCount, h.value.dataStart, elemSize * h.value.dataCount;
                  var sized := elemSize == 0 || n == SizeSub(h.value.elementSize, SizeSub(start, c.off));
                  var there := count == 0 || (start < |s| && start + n <= |s| && count <= destLen);
                  && (r.Ok? <==> sized && there)
                  && (r.Err? ==> r.status == if sized then OutOfRange else Protocol)
                  && (r.Ok? ==> start + n <= |s| && r.value == (s[start..start + n], count)))
  {
    ParseElementFails(c.ver, s, c.off);
    ParseElementAdvances(c.ver, s, c.off);
    hide ParseElement, SizeSub;
    var h := ParseElement(c.ver, s, c.off);
    if h.Ok? && h.value.dataCount == 0 {
      assert elemSize * h.value.dataCount == 0;
      assert s[h.value.dataStart..h.value.dataStart + 0] == [];
    }
  }

  /** The end if and only if the entry counts no elements; otherwise the first element's window, if its
      size can be read and lies with the header within the entry's window. */
  lemma BeginElementsOutcome(s: seq<byte>, c: EntryCursor)
    ensures var h, r := ParseEntry(c.ver, s, c.off), BeginElements(s, c);
            && (h.Err? ==> r.Err? && r.status == h.status)
            && (h.Ok? ==>
                  var o, size := h.value.elementStart, ReadCount(c.ver, s, h.value.elementStart);
                  && (r == Err(NoMore) <==> h.value.elementCount == 0)
                  && (h.value.elementCount > 0 && size.Err? ==> r.Err? && r.status == size.status)
                  && (h.value.elementCount > 0 && size.Ok? ==>
                        && (o + size.value.0 > c.off + c.count ==> r == Err(Protocol))
                        && (o + size.value.0 <= c.off + c.count ==>
                              && r.Ok? && r.value.off == o && r.value.count == size.value.0
                              && r.value.current == 0 && r.value.total == h.value.elementCount)))
  {
    ParseEntryAdvances(c.ver, s, c.off);
    if ParseEntry(c.ver, s, c.off).Ok? {
      ReadCountFails(c.ver, s, ParseEntry(c.ver, s, c.off).value.elementStart);
    }
    hide ParseEntry, ReadCount;
  }
}
