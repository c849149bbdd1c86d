/** Entry and element headers of message.c in both wire versions: the bytes the writer
    emits, the parse the reader performs, and the agreement of the two. */
module Headers {
  import opened Base
  import opened Wire

  datatype Version = V2 | V4

  // ---- flag bytes ----

  predicate HasFlag(flags: byte, mask: nat)
    requires mask > 0
  {
    flags as nat / mask % 2 == 1
  }

  /** A lowest bit in front of the bits above it. */
  function Prepend(b: bool, above: nat): (n: nat)
    ensures n <= 1 + 2 * above
  {
    (if b then 1 else 0) + 2 * above
  }

  /** The flag byte, its bits from the lowest on. */
  function FlagByte(b0: bool, b1: bool, b2: bool, b3: bool, b4: bool, b5: bool, b6: bool): byte {
    Prepend(b0, Prepend(b1, Prepend(b2, Prepend(b3, Prepend(b4, Prepend(b5, Prepend(b6, 0))))))) as byte
  }

  lemma PrependBits(b: bool, above: nat)
    ensures Prepend(b, above) / 2 == above && (Prepend(b, above) % 2 == 1) == b
  {
  }

  lemma Halving(n: nat)
    ensures n / 1 == n && n / 4 == n / 2 / 2 && n / 8 == n / 4 / 2 && n / 16 == n / 8 / 2
    ensures n / 32 == n / 16 / 2 && n / 64 == n / 32 / 2 && n / 128 == n / 64 / 2
  {
  }

  lemma FlagByteBits(b0: bool, b1: bool, b2: bool, b3: bool, b4: bool, b5: bool, b6: bool)
    ensures var f := FlagByte(b0, b1, b2, b3, b4, b5, b6);
            && HasFlag(f, 0x01) == b0 && HasFlag(f, 0x02) == b1 && HasFlag(f, 0x04) == b2
            && HasFlag(f, 0x08) == b3 && HasFlag(f, 0x10) == b4 && HasFlag(f, 0x20) == b5
            && HasFlag(f, 0x40) == b6 && !HasFlag(f, 0x80)
  {
    hide Prepend;
    var h6 := Prepend(b6, 0);
    var h5 := Prepend(b5, h6);
    var h4 := Prepend(b4, h5);
    var h3 := Prepend(b3, h4);
    var h2 := Prepend(b2, h3);
    var h1 := Prepend(b1, h2);
    PrependBits(b0, h1);
    PrependBits(b1, h2);
    PrependBits(b2, h3);
    PrependBits(b3, h4);
    PrependBits(b4, h5);
    PrependBits(b5, h6);
    PrependBits(b6, 0);
    Halving(Prepend(b0, h1));
  }

  // ---- optional fields: present exactly when their flag is set ----

  function WhenStr(c: bool, t: text): seq<byte> {
    if c then StrX(t) else []
  }

  function WhenUintX(c: bool, v: u32): seq<byte> {
    if c then UintX(v) else []
  }

  function WhenIntX(c: bool, v: i32): seq<byte> {
    if c then IntX(v) else []
  }

  function WhenU16(c: bool, v: u16): seq<byte> {
    if c then LE16(v) else []
  }

  function OptStr(c: bool, s: seq<byte>, o: nat): (r: Result<(Span, nat)>)
    ensures r.Ok? ==> o <= r.value.1
  {
    if c then ReadStrX(s, o) else Ok((NO_SPAN, o))
  }

  function OptUintX(c: bool, s: seq<byte>, o: nat): (r: Result<(u32, nat)>)
    ensures r.Ok? ==> o <= r.value.1
  {
    if c then ReadUintX(s, o) else Ok((0, o))
  }

  function OptIntX(c: bool, s: seq<byte>, o: nat): (r: Result<(i32, nat)>)
    ensures r.Ok? ==> o <= r.value.1
  {
    if c then ReadIntX(s, o) else Ok((0, o))
  }

  function OptU16(c: bool, s: seq<byte>, o: nat): (r: Result<(u16, nat)>)
    ensures r.Ok? ==> o <= r.value.1
  {
    if c then ReadU16(s, o) else Ok((0, o))
  }

  /** A block whose content is skipped: its length prefix, then that many bytes. */
  function OptSkip(c: bool, s: seq<byte>, o: nat): (r: Result<((), nat)>)
    ensures r.Ok? ==> o <= r.value.1
  {
    if c then
      var (n, o1) :- ReadUintX(s, o);
      Ok(((), o1 + n))
    else Ok(((), o))
  }

  lemma OptStrAt(c: bool, s: seq<byte>, o: nat, t: text)
    requires At(s, o, WhenStr(c, t))
    requires c || |t| == 0
    ensures OptStr(c, s, o).Ok?
    ensures OptStr(c, s, o).value.1 == o + |WhenStr(c, t)|
    ensures Holds(s, OptStr(c, s, o).value.0, t)
  {
    if c {
      ReadStrXAt(s, o, t);
    }
  }

  lemma OptUintXAt(c: bool, s: seq<byte>, o: nat, v: u32)
    requires At(s, o, WhenUintX(c, v))
    requires c || v == 0
    ensures OptUintX(c, s, o) == Ok((v, o + |WhenUintX(c, v)|))
  {
    if c {
      ReadUintXAt(s, o, v);
    }
  }

  lemma OptAbsent(s: seq<byte>, o: nat)
    ensures OptUintX(false, s, o) == Ok((0, o))
    ensures OptSkip(false, s, o) == Ok(((), o))
  {
  }

  lemma OptIntXAt(c: bool, s: seq<byte>, o: nat, v: i32)
    requires At(s, o, WhenIntX(c, v))
    requires c || v == 0
    ensures OptIntX(c, s, o) == Ok((v, o + |WhenIntX(c, v)|))
  {
    if c {
      ReadIntXAt(s, o, v);
    }
  }

  lemma OptU16At(c: bool, s: seq<byte>, o: nat, v: u16)
    requires At(s, o, WhenU16(c, v))
    requires c || v == 0
    ensures OptU16(c, s, o) == Ok((v, o + |WhenU16(c, v)|))
  {
    if c {
      ReadU16At(s, o, v);
    }
  }

  // ---- size and count fields ----

  function ReadCount(ver: Version, s: seq<byte>, o: nat): Result<(u32, nat)> {
    match ver
    case V2 => ReadU32(s, o)
    case V4 => ReadUintX(s, o)
  }

  function ReadCount2(ver: Version, s: seq<byte>, o: nat): Result<(u32, nat)> {
    match ver
    case V2 =>
      var (v, o1) :- ReadU16(s, o);
      Ok((v, o1))
    case V4 => ReadUintX(s, o)
  }

  /** A size or count field that is patched later. */
  function PatchField(ver: Version, n: nat): (f: seq<byte>)
    ensures |f| == PatchWidth(ver)
  {
    if ver == V2 then LE32(U32OfSize(n)) else PaddedUintX(U32OfSize(n))
  }

  function PatchWidth(ver: Version): nat {
    if ver == V2 then 4 else 5
  }

  /** A size or count field that is known when written. */
  function FinalField(ver: Version, n: u32): seq<byte> {
    if ver == V2 then LE32(n) else UintX(n)
  }

  ghost predicate IsCountField(ver: Version, f: seq<byte>, n: u32) {
    f == FinalField(ver, n) || f == PatchField(ver, n)
  }

  lemma CountField2(f: seq<byte>, n: u32)
    requires IsCountField(V2, f, n)
    ensures f == LE32(n)
  {
    U32Exact(n);
    hide LE32, U32OfSize;
  }

  lemma CountField4(f: seq<byte>, n: u32)
    requires IsCountField(V4, f, n)
    ensures f == UintX(n) || f == PaddedUintX(n)
  {
    U32Exact(n);
    hide UintX, PaddedUintX, U32OfSize;
  }

  lemma ReadCountAt(ver: Version, s: seq<byte>, o: nat, f: seq<byte>, n: u32)
    requires IsCountField(ver, f, n)
    requires At(s, o, f)
    ensures ReadCount(ver, s, o) == Ok((n, o + |f|))
  {
    hide IsCountField, At, LE32, UintX, PaddedUintX, ReadU32, ReadUintX, UintXSize;
    if ver == V2 {
      CountField2(f, n);
      ReadU32At(s, o, n);
    } else {
      CountField4(f, n);
      if f == UintX(n) {
        ReadUintXAt(s, o, n);
      } else {
        ReadPaddedAt(s, o, n);
      }
    }
  }

  // ---- message elements ----

  datatype ElementHeader = ElementHeader(
    name: text, nameCode: u32, number: i32, elementType: u16,
    typeName: text, typeNameCode: u32, metadata: text)

  /** The header write_raw uses: a name and a type, nothing else. */
  function DataHeader(name: text, dataType: u16): ElementHeader {
    ElementHeader(name, 0, 0, dataType, [], 0, [])
  }

  datatype ElementInfo = ElementInfo(
    elementSize: u32, name: Span, nameCode: u32, number: i32, elementType: u16,
    typeName: Span, typeNameCode: u32, metadata: Span, dataCount: u32, dataStart: nat)

  function ElementFlags(h: ElementHeader): byte {
    FlagByte(|h.name| > 0, h.nameCode != 0, h.number != 0, |h.typeName| > 0, h.typeNameCode != 0, |h.metadata| > 0,
        false)
  }

  function ElementMiddle2(h: ElementHeader): seq<byte> {
    Str2(h.name) + LE16(h.elementType) + Str2(h.typeName) + Str2(h.metadata)
  }

  function ElementMiddle4(h: ElementHeader): seq<byte> {
    [ElementFlags(h)] + WhenStr(|h.name| > 0, h.name) + WhenUintX(h.nameCode != 0, h.nameCode)
    + WhenIntX(h.number != 0, h.number) + LE16(h.elementType) + WhenStr(|h.typeName| > 0, h.typeName)
    + WhenUintX(h.typeNameCode != 0, h.typeNameCode) + WhenStr(|h.metadata| > 0, h.metadata)
  }

  function ElementMiddle(ver: Version, h: ElementHeader): seq<byte> {
    if ver == V2 then ElementMiddle2(h) else ElementMiddle4(h)
  }

  /** An element header: a size field, a middle that does not depend on it, a count field. */
  function ElementHeaderBytes(ver: Version, h: ElementHeader, size: seq<byte>, count: seq<byte>): seq<byte> {
    size + ElementMiddle(ver, h) + count
  }

  function ParseElement2(s: seq<byte>, o0: nat): Result<ElementInfo> {
    var (size, o1) :- ReadU32(s, o0);
    var (name, o2) :- ReadStr2(s, o1);
    var (elementType, o3) :- ReadU16(s, o2);
    var (typeName, o4) :- ReadStr2(s, o3);
    var (metadata, o5) :- ReadStr2(s, o4);
    var (count, o6) :- ReadU32(s, o5);
    Ok(ElementInfo(size, name, 0, 0, elementType, typeName, 0, metadata, count, o6))
  }

  /** The fields in front of the element type. */
  datatype ElementFront = ElementFront(size: u32, flags: byte, name: Span, nameCode: u32, number: i32)

  function ParseElementFront4(s: seq<byte>, o0: nat): Result<(ElementFront, nat)> {
    var (size, o1) :- ReadUintX(s, o0);
    var (flags, o2) :- ReadU8(s, o1);
    var (name, o3) :- OptStr(HasFlag(flags, 0x01), s, o2);
    var (nameCode, o4) :- OptUintX(HasFlag(flags, 0x02), s, o3);
    var (number, o5) :- OptIntX(HasFlag(flags, 0x04), s, o4);
    Ok((ElementFront(size, flags, name, nameCode, number), o5))
  }

  function ParseElementBack4(s: seq<byte>, f: ElementFront, o5: nat): Result<ElementInfo> {
    var (elementType, o6) :- ReadU16(s, o5);
    var (typeName, o7) :- OptStr(HasFlag(f.flags, 0x08), s, o6);
    var (typeNameCode, o8) :- OptUintX(HasFlag(f.flags, 0x10), s, o7);
    var (metadata, o9) :- OptStr(HasFlag(f.flags, 0x20), s, o8);
    var (_, o10) :- OptSkip(HasFlag(f.flags, 0x80), s, o9);
    var (count, o11) :- ReadUintX(s, o10);
    Ok(ElementInfo(f.size, f.name, f.nameCode, f.number, elementType, typeName, typeNameCode, metadata, count, o11))
  }

  function ParseElement4(s: seq<byte>, o0: nat): Result<ElementInfo> {
    var (front, o5) :- ParseElementFront4(s, o0);
    ParseElementBack4(s, front, o5)
  }

  function ParseElement(ver: Version, s: seq<byte>, o: nat): Result<ElementInfo> {
    if ver == V2 then ParseElement2(s, o) else ParseElement4(s, o)
  }

  ghost predicate ElementMatches(s: seq<byte>, info: ElementInfo, h: ElementHeader) {
    && Holds(s, info.name, h.name) && info.nameCode == h.nameCode && info.number == h.number
    && info.elementType == h.elementType && Holds(s, info.typeName, h.typeName)
    && info.typeNameCode == h.typeNameCode && Holds(s, info.metadata, h.metadata)
  }

  /** Version 2 has 16-bit string lengths and no code or number fields. */
  predicate ElementFits(ver: Version, h: ElementHeader) {
    ver == V2 ==>
      && |h.name| <= U16_MAX && |h.typeName| <= U16_MAX && |h.metadata| <= U16_MAX
      && h.nameCode == 0 && h.number == 0 && h.typeNameCode == 0
  }

  ghost predicate Element2Pieces(s: seq<byte>, o: nat, h: ElementHeader) {
    && At(s, o, Str2(h.name))
    && At(s, o + 2 + |h.name|, LE16(h.elementType))
    && At(s, o + 4 + |h.name|, Str2(h.typeName))
    && At(s, o + 6 + |h.name| + |h.typeName|, Str2(h.metadata))
    && |ElementMiddle2(h)| == 8 + |h.name| + |h.typeName| + |h.metadata|
  }

  lemma Element2Splits(s: seq<byte>, o: nat, h: ElementHeader)
    requires At(s, o, ElementMiddle2(h))
    ensures Element2Pieces(s, o, h)
  {
    hide At, LE16, Str2;
    AtSplit(s, o, Str2(h.name) + LE16(h.elementType) + Str2(h.typeName), Str2(h.metadata));
    AtSplit3(s, o, Str2(h.name), LE16(h.elementType), Str2(h.typeName));
  }

  lemma Element2Parses(s: seq<byte>, o: nat, h: ElementHeader, size: seq<byte>, count: seq<byte>, n: u32, c: u32)
    requires IsCountField(V2, size, n) && IsCountField(V2, count, c)
    requires |h.name| <= U16_MAX && |h.typeName| <= U16_MAX && |h.metadata| <= U16_MAX
    requires At(s, o, ElementHeaderBytes(V2, h, size, count))
    ensures ParseElement2(s, o).Ok?
    ensures var info := ParseElement2(s, o).value;
            && info.elementSize == n && info.dataCount == c
            && info.dataStart == o + |ElementHeaderBytes(V2, h, size, count)|
            && ElementMatches(s, info, h.(nameCode := 0, number := 0, typeNameCode := 0))
  {
    hide At, Holds, ReadU16, ReadU32, ReadStr2, Str2, LE16, LE32, ElementMiddle2;
    AtSplit3(s, o, size, ElementMiddle2(h), count);
    Element2Splits(s, o + 4, h);
    ReadU32At(s, o, n);
    ReadStr2At(s, o + 4, h.name);
    ReadU16At(s, o + 6 + |h.name|, h.elementType);
    ReadStr2At(s, o + 8 + |h.name|, h.typeName);
    ReadStr2At(s, o + 10 + |h.name| + |h.typeName|, h.metadata);
    ReadU32At(s, o + 12 + |h.name| + |h.typeName| + |h.metadata|, c);
  }

  function ElementFrontLength(h: ElementHeader): nat {
    1 + |WhenStr(|h.name| > 0, h.name)| + |WhenUintX(h.nameCode != 0, h.nameCode)| + |WhenIntX(h.number != 0, h.number)|
  }

  ghost predicate ElementFrontPieces(s: seq<byte>, o: nat, h: ElementHeader) {
    var o3 := o + 1 + |WhenStr(|h.name| > 0, h.name)|;
    && At(s, o, [ElementFlags(h)])
    && At(s, o + 1, WhenStr(|h.name| > 0, h.name))
    && At(s, o3, WhenUintX(h.nameCode != 0, h.nameCode))
    && At(s, o3 + |WhenUintX(h.nameCode != 0, h.nameCode)|, WhenIntX(h.number != 0, h.number))
  }

  function ElementBackLength(h: ElementHeader): nat {
    2 + |WhenStr(|h.typeName| > 0, h.typeName)| + |WhenUintX(h.typeNameCode != 0, h.typeNameCode)|
    + |WhenStr(|h.metadata| > 0, h.metadata)|
  }

  ghost predicate ElementBackPieces(s: seq<byte>, o: nat, h: ElementHeader) {
    var o7 := o + 2 + |WhenStr(|h.typeName| > 0, h.typeName)|;
    && At(s, o, LE16(h.elementType))
    && At(s, o + 2, WhenStr(|h.typeName| > 0, h.typeName))
    && At(s, o7, WhenUintX(h.typeNameCode != 0, h.typeNameCode))
    && At(s, o7 + |WhenUintX(h.typeNameCode != 0, h.typeNameCode)|, WhenStr(|h.metadata| > 0, h.metadata))
  }

  ghost predicate Element4Pieces(s: seq<byte>, o: nat, h: ElementHeader) {
    && ElementFrontPieces(s, o, h) && ElementBackPieces(s, o + ElementFrontLength(h), h)
    && ElementFrontLength(h) + ElementBackLength(h) == |ElementMiddle4(h)|
  }

  lemma Element4Splits(s: seq<byte>, o: nat, h: ElementHeader)
    requires At(s, o, ElementMiddle4(h))
    ensures Element4Pieces(s, o, h)
  {
    hide At, WhenStr, WhenUintX, WhenIntX, LE16, ElementFlags;
    var name, typeName, metadata := WhenStr(|h.name| > 0, h.name), WhenStr(|h.typeName| > 0, h.typeName),
        WhenStr(|h.metadata| > 0, h.metadata);
    var nameCode, typeNameCode := WhenUintX(h.nameCode != 0, h.nameCode),
        WhenUintX(h.typeNameCode != 0, h.typeNameCode);
    var number := WhenIntX(h.number != 0, h.number);
    var a := [ElementFlags(h)] + name + nameCode;
    var b := a + number + LE16(h.elementType);
    AtSplit3(s, o, b + typeName, typeNameCode, metadata);
    AtSplit(s, o, b, typeName);
    AtSplit3(s, o, a, number, LE16(h.elementType));
    AtSplit3(s, o, [ElementFlags(h)], name, nameCode);
  }

  lemma ElementFlagsAre(h: ElementHeader)
    ensures var f := ElementFlags(h);
            && HasFlag(f, 0x01) == (|h.name| > 0) && HasFlag(f, 0x02) == (h.nameCode != 0)
            && HasFlag(f, 0x04) == (h.number != 0)
            && HasFlag(f, 0x08) == (|h.typeName| > 0) && HasFlag(f, 0x10) == (h.typeNameCode != 0)
            && HasFlag(f, 0x20) == (|h.metadata| > 0) && !HasFlag(f, 0x80)
  {
    hide HasFlag, FlagByte;
    FlagByteBits(|h.name| > 0, h.nameCode != 0, h.number != 0, |h.typeName| > 0, h.typeNameCode != 0, |h.metadata| > 0,
        false);
  }

  lemma ElementFront4Parses(s: seq<byte>, o: nat, h: ElementHeader, size: seq<byte>, n: u32)
    requires IsCountField(V4, size, n) && At(s, o, size) && ElementFrontPieces(s, o + |size|, h)
    ensures ParseElementFront4(s, o).Ok?
    ensures var (f, next) := ParseElementFront4(s, o).value;
            && f.size == n && f.flags == ElementFlags(h) && Holds(s, f.name, h.name)
            && f.nameCode == h.nameCode && f.number == h.number && next == o + |size| + ElementFrontLength(h)
  {
    hide At, Holds, IsCountField, ReadU8, ReadUintX, OptStr, OptUintX, OptIntX, WhenStr, WhenUintX, WhenIntX, HasFlag,
         ElementFlags;
    ElementFlagsAre(h);
    var o1 := o + |size|;
    ReadCountAt(V4, s, o, size, n);
    ReadU8At(s, o1, ElementFlags(h));
    OptStrAt(|h.name| > 0, s, o1 + 1, h.name);
    var o3 := o1 + 1 + |WhenStr(|h.name| > 0, h.name)|;
    OptUintXAt(h.nameCode != 0, s, o3, h.nameCode);
    OptIntXAt(h.number != 0, s, o3 + |WhenUintX(h.nameCode != 0, h.nameCode)|, h.number);
  }

  lemma ElementBack4Parses(s: seq<byte>, f: ElementFront, o: nat, h: ElementHeader, count: seq<byte>, c: u32)
    requires f.flags == ElementFlags(h) && ElementBackPieces(s, o, h)
    requires IsCountField(V4, count, c) && At(s, o + ElementBackLength(h), count)
    ensures ParseElementBack4(s, f, o).Ok?
    ensures var info := ParseElementBack4(s, f, o).value;
            && info == info.(elementSize := f.size, name := f.name, nameCode := f.nameCode, number := f.number)
            && info.elementType == h.elementType && Holds(s, info.typeName, h.typeName)
            && info.typeNameCode == h.typeNameCode
            && Holds(s, info.metadata, h.metadata) && info.dataCount == c
            && info.dataStart == o + ElementBackLength(h) + |count|
  {
    hide At, Holds, IsCountField, ReadU16, ReadUintX, OptStr, OptUintX, OptSkip, WhenStr, WhenUintX, HasFlag,
         ElementFlags, LE16;
    ElementFlagsAre(h);
    ReadU16At(s, o, h.elementType);
    OptStrAt(|h.typeName| > 0, s, o + 2, h.typeName);
    var o7 := o + 2 + |WhenStr(|h.typeName| > 0, h.typeName)|;
    OptUintXAt(h.typeNameCode != 0, s, o7, h.typeNameCode);
    OptStrAt(|h.metadata| > 0, s, o7 + |WhenUintX(h.typeNameCode != 0, h.typeNameCode)|, h.metadata);
    OptAbsent(s, o + ElementBackLength(h));
    ReadCountAt(V4, s, o + ElementBackLength(h), count, c);
  }

  lemma Element4Parses(s: seq<byte>, o: nat, h: ElementHeader, size: seq<byte>, count: seq<byte>, n: u32, c: u32)
    requires IsCountField(V4, size, n) && IsCountField(V4, count, c)
    requires At(s, o, ElementHeaderBytes(V4, h, size, count))
    ensures ParseElement4(s, o).Ok?
    ensures var info := ParseElement4(s, o).value;
            && info.elementSize == n && info.dataCount == c
            && info.dataStart == o + |ElementHeaderBytes(V4, h, size, count)|
            && ElementMatches(s, info, h)
  {
    hide At, Holds, IsCountField, ElementFrontPieces, ElementBackPieces, ElementFrontLength, ElementBackLength,
         ElementMiddle4, ElementFlags, ParseElementFront4, ParseElementBack4;
    AtSplit3(s, o, size, ElementMiddle4(h), count);
    Element4Splits(s, o + |size|, h);
    ElementFront4Parses(s, o, h, size, n);
    var (f, next) := ParseElementFront4(s, o).value;
    ElementBack4Parses(s, f, next, h, count, c);
  }

  lemma ElementParses(ver: Version, s: seq<byte>, o: nat, h: ElementHeader, size: seq<byte>, count: seq<byte>, n: u32,
          c: u32)
    requires ElementFits(ver, h)
    requires IsCountField(ver, size, n) && IsCountField(ver, count, c)
    requires At(s, o, ElementHeaderBytes(ver, h, size, count))
    ensures ParseElement(ver, s, o).Ok?
    ensures var info := ParseElement(ver, s, o).value;
            && info.elementSize == n && info.dataCount == c
            && info.dataStart == o + |ElementHeaderBytes(ver, h, size, count)|
            && ElementMatches(s, info, h)
  {
    hide At, Holds, ParseElement2, ParseElement4, ElementHeaderBytes;
    if ver == V2 {
      assert h.(nameCode := 0, number := 0, typeNameCode := 0) == h;
      Element2Parses(s, o, h, size, count, n, c);
    } else {
      Element4Parses(s, o, h, size, count, n, c);
    }
  }

  lemma Element2Bounds(s: seq<byte>, o: nat)
    ensures ParseElement2(s, o).Ok? ==>
              var info := ParseElement2(s, o).value;
              && info.name.len <= U16_MAX && info.typeName.len <= U16_MAX && info.metadata.len <= U16_MAX
              && info.nameCode == 0 && info.number == 0 && info.typeNameCode == 0
  {
  }

  /** The exact condition: an element header survives the trip precisely when it fits the
      version, i.e. in version 2 when its strings fit 16-bit lengths and its codes are zero. */
  lemma ElementRoundTripIff(ver: Version, s: seq<byte>, o: nat, h: ElementHeader, size: seq<byte>, count: seq<byte>,
          n: u32, c: u32)
    requires IsCountField(ver, size, n) && IsCountField(ver, count, c)
    requires At(s, o, ElementHeaderBytes(ver, h, size, count))
    ensures ElementFits(ver, h) <==> ParseElement(ver, s, o).Ok? && ElementMatches(s, ParseElement(ver, s, o).value, h)
  {
    hide At, ParseElement2, ParseElement4, ElementHeaderBytes;
    if ElementFits(ver, h) {
      ElementParses(ver, s, o, h, size, count, n, c);
    } else {
      assert ver == V2;
      Element2Bounds(s, o);
    }
  }

  /** A failing input: in version 2 a name code is written nowhere and read back as zero. */
  lemma NameCodeLost()
    ensures var h := ElementHeader([], 1, 0, 0, [], 0, []);
            var s := ElementHeaderBytes(V2, h, LE32(16), LE32(0));
            && !ElementFits(V2, h) && ParseElement(V2, s, 0).Ok? && ParseElement(V2, s, 0).value.nameCode == 0
            && !ElementMatches(s, ParseElement(V2, s, 0).value, h)
  {
    hide ElementHeaderBytes, ParseElement2, LE32;
    var h := ElementHeader([], 1, 0, 0, [], 0, []);
    var s := ElementHeaderBytes(V2, h, LE32(16), LE32(0));
    assert At(s, 0, s);
    Element2Parses(s, 0, h, LE32(16), LE32(0), 16, 0);
  }

  // ---- message entries ----

  datatype EntryHeader = EntryHeader(
    entryType: u16, servicePath: text, servicePathCode: u32, memberName: text, memberNameCode: u32,
    requestId: u32, error: u16, metadata: text)

  datatype EntryInfo = EntryInfo(
    entrySize: u32, entryType: u16, servicePath: Span, servicePathCode: u32, memberName: Span, memberNameCode: u32,
    requestId: u32, error: u16, metadata: Span, elementCount: u32, elementCountOffset: nat, elementStart: nat)

  /** The writer has no case for the member name code: bit 0x08 is never set. */
  function EntryFlags(h: EntryHeader): byte {
    FlagByte(|h.servicePath| > 0, h.servicePathCode != 0, |h.memberName| > 0, false, h.requestId != 0, h.error != 0,
        |h.metadata| > 0)
  }

  function EntryMiddle2(h: EntryHeader): seq<byte> {
    LE16(h.entryType) + LE16(0) + Str2(h.servicePath) + Str2(h.memberName) + LE32(h.requestId) + LE16(h.error)
        + Str2(h.metadata)
  }

  function EntryMiddle4(h: EntryHeader): seq<byte> {
    [EntryFlags(h)] + LE16(h.entryType) + WhenStr(|h.servicePath| > 0, h.servicePath)
    + WhenUintX(h.servicePathCode != 0, h.servicePathCode) + WhenStr(|h.memberName| > 0, h.memberName)
    + WhenUintX(h.requestId != 0, h.requestId) + WhenU16(h.error != 0, h.error) + WhenStr(|h.metadata| > 0, h.metadata)
  }

  function EntryMiddle(ver: Version, h: EntryHeader): seq<byte> {
    if ver == V2 then EntryMiddle2(h) else EntryMiddle4(h)
  }

  /** The element count of an entry is a truncating 16-bit field in version 2. */
  function EntryCountField(ver: Version, n: nat): (f: seq<byte>)
    ensures |f| == if ver == V2 then 2 else 5
  {
    if ver == V2 then LE16(U16OfSize(n)) else PatchField(ver, n)
  }

  function EntryHeaderBytes(ver: Version, h: EntryHeader, size: nat, count: nat): seq<byte> {
    PatchField(ver, size) + EntryMiddle(ver, h) + EntryCountField(ver, count)
  }

  function ParseEntry2(s: seq<byte>, o0: nat): Result<EntryInfo> {
    var (size, o1) :- ReadU32(s, o0);
    var (entryType, o2) :- ReadU16(s, o1);
    var (servicePath, o3) :- ReadStr2(s, o2 + 2);
    var (memberName, o4) :- ReadStr2(s, o3);
    var (requestId, o5) :- ReadU32(s, o4);
    var (error, o6) :- ReadU16(s, o5);
    var (metadata, o7) :- ReadStr2(s, o6);
    var (count, o8) :- ReadU16(s, o7);
    Ok(EntryInfo(size, entryType, servicePath, 0, memberName, 0, requestId, error, metadata, count, o7, o8))
  }

  /** The fields in front of the member name code. */
  datatype EntryFront = EntryFront(
    size: u32, flags: byte, entryType: u16, servicePath: Span, servicePathCode: u32, memberName: Span)

  function ParseEntryFront4(s: seq<byte>, o0: nat): Result<(EntryFront, nat)> {
    var (size, o1) :- ReadUintX(s, o0);
    var (flags, o2) :- ReadU8(s, o1);
    var (entryType, o3) :- ReadU16(s, o2);
    var (servicePath, o4) :- OptStr(HasFlag(flags, 0x01), s, o3);
    var (servicePathCode, o5) :- OptUintX(HasFlag(flags, 0x02), s, o4);
    var (memberName, o6) :- OptStr(HasFlag(flags, 0x04), s, o5);
    Ok((EntryFront(size, flags, entryType, servicePath, servicePathCode, memberName), o6))
  }

  function ParseEntryBack4(s: seq<byte>, f: EntryFront, o6: nat): Result<EntryInfo> {
    var (memberNameCode, o7) :- OptUintX(HasFlag(f.flags, 0x08), s, o6);
    var (requestId, o8) :- OptUintX(HasFlag(f.flags, 0x10), s, o7);
    var (error, o9) :- OptU16(HasFlag(f.flags, 0x20), s, o8);
    var (metadata, o10) :- OptStr(HasFlag(f.flags, 0x40), s, o9);
    var (_, o11) :- OptSkip(HasFlag(f.flags, 0x80), s, o10);
    var (count, o12) :- ReadUintX(s, o11);
    Ok(EntryInfo(f.size, f.entryType, f.servicePath, f.servicePathCode, f.memberName, memberNameCode, requestId, error,
                 metadata, count, o11, o12))
  }

  function ParseEntry4(s: seq<byte>, o0: nat): Result<EntryInfo> {
    var (front, o6) :- ParseEntryFront4(s, o0);
    ParseEntryBack4(s, front, o6)
  }

  function ParseEntry(ver: Version, s: seq<byte>, o: nat): Result<EntryInfo> {
    if ver == V2 then ParseEntry2(s, o) else ParseEntry4(s, o)
  }

  ghost predicate EntryMatches(s: seq<byte>, info: EntryInfo, h: EntryHeader) {
    && info.entryType == h.entryType && Holds(s, info.servicePath, h.servicePath)
    && info.servicePathCode == h.servicePathCode && Holds(s, info.memberName, h.memberName)
    && info.memberNameCode == h.memberNameCode && info.requestId == h.requestId && info.error == h.error
    && Holds(s, info.metadata, h.metadata)
  }

  /** What the format can carry of an entry header. */
  predicate EntryFits(ver: Version, h: EntryHeader) {
    && h.memberNameCode == 0
    && (ver == V2 ==>
          && |h.servicePath| <= U16_MAX && |h.memberName| <= U16_MAX && |h.metadata| <= U16_MAX
          && h.servicePathCode == 0)
  }

  ghost predicate Entry2Pieces(s: seq<byte>, o: nat, h: EntryHeader) {
    var n := |h.servicePath| + |h.memberName|;
    && At(s, o, LE16(h.entryType))
    && At(s, o + 4, Str2(h.servicePath))
    && At(s, o + 6 + |h.servicePath|, Str2(h.memberName))
    && At(s, o + 8 + n, LE32(h.requestId))
    && At(s, o + 12 + n, LE16(h.error))
    && At(s, o + 14 + n, Str2(h.metadata))
    && |EntryMiddle2(h)| == 16 + n + |h.metadata|
  }

  lemma Entry2Splits(s: seq<byte>, o: nat, h: EntryHeader)
    requires At(s, o, EntryMiddle2(h))
    ensures Entry2Pieces(s, o, h)
  {
    hide At, LE16, LE32, Str2;
    var a := LE16(h.entryType) + LE16(0) + Str2(h.servicePath);
    var b := a + Str2(h.memberName) + LE32(h.requestId);
    AtSplit3(s, o, b, LE16(h.error), Str2(h.metadata));
    AtSplit3(s, o, a, Str2(h.memberName), LE32(h.requestId));
    AtSplit3(s, o, LE16(h.entryType), LE16(0), Str2(h.servicePath));
  }

  lemma Entry2Parses(s: seq<byte>, o: nat, h: EntryHeader, size: nat, count: nat)
    requires |h.servicePath| <= U16_MAX && |h.memberName| <= U16_MAX && |h.metadata| <= U16_MAX
    requires At(s, o, EntryHeaderBytes(V2, h, size, count))
    ensures ParseEntry2(s, o).Ok?
    ensures var info := ParseEntry2(s, o).value;
            && info.entrySize == U32OfSize(size) && info.elementCount == U16OfSize(count)
            && info.elementStart == o + |EntryHeaderBytes(V2, h, size, count)|
            && info.elementCountOffset == info.elementStart - 2
            && EntryMatches(s, info, h.(servicePathCode := 0, memberNameCode := 0))
  {
    hide At, Holds, ReadU16, ReadU32, ReadStr2, Str2, LE16, LE32, EntryMiddle2;
    AtSplit3(s, o, PatchField(V2, size), EntryMiddle2(h), EntryCountField(V2, count));
    Entry2Splits(s, o + 4, h);
    var n := |h.servicePath| + |h.memberName|;
    ReadU32At(s, o, U32OfSize(size));
    ReadU16At(s, o + 4, h.entryType);
    ReadStr2At(s, o + 8, h.servicePath);
    ReadStr2At(s, o + 10 + |h.servicePath|, h.memberName);
    ReadU32At(s, o + 12 + n, h.requestId);
    ReadU16At(s, o + 16 + n, h.error);
    ReadStr2At(s, o + 18 + n, h.metadata);
    ReadU16At(s, o + 20 + n + |h.metadata|, U16OfSize(count));
  }

  function EntryFrontLength(h: EntryHeader): nat {
    3 + |WhenStr(|h.servicePath| > 0, h.servicePath)| + |WhenUintX(h.servicePathCode != 0, h.servicePathCode)|
    + |WhenStr(|h.memberName| > 0, h.memberName)|
  }

  ghost predicate EntryFrontPieces(s: seq<byte>, o: nat, h: EntryHeader) {
    var o4 := o + 3 + |WhenStr(|h.servicePath| > 0, h.servicePath)|;
    && At(s, o, [EntryFlags(h)])
    && At(s, o + 1, LE16(h.entryType))
    && At(s, o + 3, WhenStr(|h.servicePath| > 0, h.servicePath))
    && At(s, o4, WhenUintX(h.servicePathCode != 0, h.servicePathCode))
    && At(s, o4 + |WhenUintX(h.servicePathCode != 0, h.servicePathCode)|, WhenStr(|h.memberName| > 0, h.memberName))
  }

  function EntryBackLength(h: EntryHeader): nat {
    |WhenUintX(h.requestId != 0, h.requestId)| + |WhenU16(h.error != 0, h.error)|
        + |WhenStr(|h.metadata| > 0, h.metadata)|
  }

  ghost predicate EntryBackPieces(s: seq<byte>, o: nat, h: EntryHeader) {
    var o7 := o + |WhenUintX(h.requestId != 0, h.requestId)|;
    && At(s, o, WhenUintX(h.requestId != 0, h.requestId))
    && At(s, o7, WhenU16(h.error != 0, h.error))
    && At(s, o7 + |WhenU16(h.error != 0, h.error)|, WhenStr(|h.metadata| > 0, h.metadata))
  }

  ghost predicate Entry4Pieces(s: seq<byte>, o: nat, h: EntryHeader) {
    && EntryFrontPieces(s, o, h) && EntryBackPieces(s, o + EntryFrontLength(h), h)
    && EntryFrontLength(h) + EntryBackLength(h) == |EntryMiddle4(h)|
  }

  lemma Entry4Splits(s: seq<byte>, o: nat, h: EntryHeader)
    requires At(s, o, EntryMiddle4(h))
    ensures Entry4Pieces(s, o, h)
  {
    hide At, WhenStr, WhenUintX, WhenU16, LE16, EntryFlags;
    var path, member, metadata := WhenStr(|h.servicePath| > 0, h.servicePath),
        WhenStr(|h.memberName| > 0, h.memberName), WhenStr(|h.metadata| > 0, h.metadata);
    var pathCode, requestId := WhenUintX(h.servicePathCode != 0, h.servicePathCode),
        WhenUintX(h.requestId != 0, h.requestId);
    var error := WhenU16(h.error != 0, h.error);
    var a := [EntryFlags(h)] + LE16(h.entryType) + path;
    var b := a + pathCode + member;
    AtSplit3(s, o, b + requestId, error, metadata);
    AtSplit(s, o, b, requestId);
    AtSplit3(s, o, a, pathCode, member);
    AtSplit3(s, o, [EntryFlags(h)], LE16(h.entryType), path);
  }

  lemma EntryFlagsAre(h: EntryHeader)
    ensures var f := EntryFlags(h);
            && HasFlag(f, 0x01) == (|h.servicePath| > 0) && HasFlag(f, 0x02) == (h.servicePathCode != 0)
            && HasFlag(f, 0x04) == (|h.memberName| > 0) && !HasFlag(f, 0x08) && HasFlag(f, 0x10) == (h.requestId != 0)
            && HasFlag(f, 0x20) == (h.error != 0) && HasFlag(f, 0x40) == (|h.metadata| > 0) && !HasFlag(f, 0x80)
  {
    hide HasFlag, FlagByte;
    FlagByteBits(|h.servicePath| > 0, h.servicePathCode != 0, |h.memberName| > 0, false, h.requestId != 0, h.error != 0,
        |h.metadata| > 0);
  }

  lemma EntryFront4Parses(s: seq<byte>, o: nat, h: EntryHeader, size: u32)
    requires At(s, o, PaddedUintX(size)) && EntryFrontPieces(s, o + 5, h)
    ensures ParseEntryFront4(s, o).Ok?
    ensures var (f, next) := ParseEntryFront4(s, o).value;
            && f.size == size && f.flags == EntryFlags(h) && f.entryType == h.entryType
            && Holds(s, f.servicePath, h.servicePath)
            && f.servicePathCode == h.servicePathCode && Holds(s, f.memberName, h.memberName)
            && next == o + 5 + EntryFrontLength(h)
  {
    hide At, Holds, ReadU8, ReadU16, ReadUintX, OptStr, OptUintX, WhenStr, WhenUintX, HasFlag, EntryFlags, LE16,
         PaddedUintX;
    EntryFlagsAre(h);
    ReadPaddedAt(s, o, size);
    ReadU8At(s, o + 5, EntryFlags(h));
    ReadU16At(s, o + 6, h.entryType);
    OptStrAt(|h.servicePath| > 0, s, o + 8, h.servicePath);
    var o4 := o + 8 + |WhenStr(|h.servicePath| > 0, h.servicePath)|;
    OptUintXAt(h.servicePathCode != 0, s, o4, h.servicePathCode);
    OptStrAt(|h.memberName| > 0, s, o4 + |WhenUintX(h.servicePathCode != 0, h.servicePathCode)|, h.memberName);
  }

  lemma EntryBack4Parses(s: seq<byte>, f: EntryFront, o: nat, h: EntryHeader, count: u32)
    requires f.flags == EntryFlags(h) && EntryBackPieces(s, o, h) && At(s, o + EntryBackLength(h), PaddedUintX(count))
    ensures ParseEntryBack4(s, f, o).Ok?
    ensures var info := ParseEntryBack4(s, f, o).value;
            && info == info.(entrySize := f.size, entryType := f.entryType, servicePath := f.servicePath,
                             servicePathCode := f.servicePathCode, memberName := f.memberName)
            && info.memberNameCode == 0 && info.requestId == h.requestId && info.error == h.error
            && Holds(s, info.metadata, h.metadata) && info.elementCount == count
            && info.elementCountOffset == o + EntryBackLength(h) && info.elementStart == o + EntryBackLength(h) + 5
  {
    hide At, Holds, ReadUintX, OptStr, OptU16, OptUintX, OptSkip, WhenStr, WhenUintX, WhenU16, HasFlag, EntryFlags,
         PaddedUintX;
    EntryFlagsAre(h);
    OptAbsent(s, o);
    OptUintXAt(h.requestId != 0, s, o, h.requestId);
    var o7 := o + |WhenUintX(h.requestId != 0, h.requestId)|;
    OptU16At(h.error != 0, s, o7, h.error);
    OptStrAt(|h.metadata| > 0, s, o7 + |WhenU16(h.error != 0, h.error)|, h.metadata);
    OptAbsent(s, o + EntryBackLength(h));
    ReadPaddedAt(s, o + EntryBackLength(h), count);
  }

  lemma Entry4Parses(s: seq<byte>, o: nat, h: EntryHeader, size: nat, count: nat)
    requires At(s, o, EntryHeaderBytes(V4, h, size, count))
    ensures ParseEntry4(s, o).Ok?
    ensures var info := ParseEntry4(s, o).value;
            && info.entrySize == U32OfSize(size) && info.elementCount == U32OfSize(count)
            && info.elementStart == o + |EntryHeaderBytes(V4, h, size, count)|
            && info.elementCountOffset == info.elementStart - 5
            && EntryMatches(s, info, h.(memberNameCode := 0))
  {
    hide At, Holds, EntryFrontPieces, EntryBackPieces, EntryFrontLength, EntryBackLength, EntryMiddle4, EntryFlags,
         ParseEntryFront4, ParseEntryBack4, PaddedUintX, U32OfSize;
    AtSplit3(s, o, PaddedUintX(U32OfSize(size)), EntryMiddle4(h), PaddedUintX(U32OfSize(count)));
    Entry4Splits(s, o + 5, h);
    EntryFront4Parses(s, o, h, U32OfSize(size));
    var (f, next) := ParseEntryFront4(s, o).value;
    EntryBack4Parses(s, f, next, h, U32OfSize(count));
  }

  lemma EntryParses(ver: Version, s: seq<byte>, o: nat, h: EntryHeader, size: nat, count: nat)
    requires EntryFits(ver, h)
    requires size <= U32_MAX && count <= if ver == V2 then U16_MAX else U32_MAX
    requires At(s, o, EntryHeaderBytes(ver, h, size, count))
    ensures ParseEntry(ver, s, o).Ok?
    ensures var info := ParseEntry(ver, s, o).value;
            && info.entrySize == size && info.elementCount == count
            && info.elementStart == o + |EntryHeaderBytes(ver, h, size, count)|
            && info.elementCountOffset == info.elementStart - |EntryCountField(ver, count)|
            && EntryMatches(s, info, h)
  {
    hide At, Holds, ParseEntry2, ParseEntry4, EntryHeaderBytes;
    assert h.(memberNameCode := 0) == h;
    if ver == V2 {
      assert h.(servicePathCode := 0, memberNameCode := 0) == h;
      Entry2Parses(s, o, h, size, count);
    } else {
      Entry4Parses(s, o, h, size, count);
    }
  }

  lemma Entry2Bounds(s: seq<byte>, o: nat)
    ensures ParseEntry2(s, o).Ok? ==>
              var info := ParseEntry2(s, o).value;
              && info.servicePath.len <= U16_MAX && info.memberName.len <= U16_MAX && info.metadata.len <= U16_MAX
              && info.servicePathCode == 0 && info.memberNameCode == 0 && info.elementCount <= U16_MAX
  {
  }

  /** The exact condition for entry headers; in version 4 only the member name code is lost. */
  lemma EntryRoundTripIff(ver: Version, s: seq<byte>, o: nat, h: EntryHeader, size: nat, count: nat)
    requires At(s, o, EntryHeaderBytes(ver, h, size, count))
    ensures EntryFits(ver, h) <==> ParseEntry(ver, s, o).Ok? && EntryMatches(s, ParseEntry(ver, s, o).value, h)
  {
    hide At, ParseEntry2, ParseEntry4, EntryHeaderBytes;
    if ver == V4 {
      Entry4Parses(s, o, h, size, count);
    } else if |h.servicePath| <= U16_MAX && |h.memberName| <= U16_MAX && |h.metadata| <= U16_MAX {
      Entry2Parses(s, o, h, size, count);
    } else {
      Entry2Bounds(s, o);
    }
  }

  /** A failing input: in version 4 a member name code sets no flag and is read back as zero. */
  lemma MemberNameCodeLost()
    ensures var h := EntryHeader(0, [], 0, [], 1, 0, 0, []);
            var s := EntryHeaderBytes(V4, h, 13, 0);
            && !EntryFits(V4, h) && ParseEntry(V4, s, 0).Ok? && ParseEntry(V4, s, 0).value.memberNameCode == 0
            && !EntryMatches(s, ParseEntry(V4, s, 0).value, h)
  {
    hide EntryHeaderBytes, ParseEntry4;
    var h := EntryHeader(0, [], 0, [], 1, 0, 0, []);
    var s := EntryHeaderBytes(V4, h, 13, 0);
    assert At(s, 0, s);
    Entry4Parses(s, 0, h, 13, 0);
  }
}
