/** The back-patching writers of message.c: begin/end pairs leave size and count
    placeholders in the buffer and fill them in when the enclosed part is complete. */
module Writer {
  import opened Base
  import opened Headers
  import opened Tree
  import opened Emit

  /** s and t differ at most between lo and hi. */
  ghost predicate AgreesOutside(s: seq<byte>, t: seq<byte>, lo: nat, hi: nat) {
    lo <= hi <= |s| == |t| && s[..lo] == t[..lo] && s[hi..] == t[hi..]
  }

  lemma AtOutside(s: seq<byte>, t: seq<byte>, lo: nat, hi: nat, o: nat, p: seq<byte>)
    requires AgreesOutside(s, t, lo, hi)
    requires At(s, o, p)
    requires o + |p| <= lo || hi <= o
    ensures At(t, o, p)
  {
    if o + |p| <= lo {
      AtPrefix(s, t, lo, o, p);
    } else {
      forall i | o <= i < o + |p|
        ensures t[i] == s[i]
      {
        assert t[i] == t[hi..][i - hi] && s[i] == s[hi..][i - hi];
      }
      assert t[o..o + |p|] == s[o..o + |p|];
    }
  }

  lemma AgreesTrans(s: seq<byte>, t: seq<byte>, u: seq<byte>, lo: nat, hi: nat, lo1: nat, hi1: nat)
    requires AgreesOutside(s, t, lo, hi)
    requires AgreesOutside(t, u, lo1, hi1)
    requires lo <= lo1 && hi1 <= hi
    ensures AgreesOutside(s, u, lo, hi)
  {
    assert t[..lo] == t[..lo1][..lo] == u[..lo1][..lo] == u[..lo];
    assert t[hi..] == t[hi1..][hi - hi1..] == u[hi1..][hi - hi1..] == u[hi..];
  }

  /** copy_from_mem at a remembered offset: all or nothing. */
  method Patch(buf: array<byte>, at: nat, p: seq<byte>) returns (rv: Status)
    modifies buf
    ensures rv == Success <==> at + |p| <= buf.Length
    ensures rv == Success ==> AgreesOutside(old(buf[..]), buf[..], at, at + |p|) && At(buf[..], at, p)
    ensures rv != Success ==> rv == OutOfRange && buf[..] == old(buf[..])
  {
    if at + |p| > buf.Length {
      return OutOfRange;
    }
    forall i | 0 <= i < |p| {
      buf[at + i] := p[i];
    }
    return Success;
  }

  /** Patching the four value bytes of a placeholder yields the field for the new value. */
  lemma PatchedField(ver: Version, s: seq<byte>, t: seq<byte>, o: nat, n: nat)
    requires At(s, o, PatchField(ver, 0))
    requires AgreesOutside(s, t, o + PatchWidth(ver) - 4, o + PatchWidth(ver))
    requires At(t, o + PatchWidth(ver) - 4, LE32(U32OfSize(n)))
    ensures At(t, o, PatchField(ver, n))
  {
    hide LE32, At, AgreesOutside, U32OfSize;
    if ver == V4 {
      U32Exact(0);
      AtSplit(s, o, [254], LE32(0));
      AtOutside(s, t, o + 1, o + 5, o, [254]);
      AtJoin(t, o, [254], LE32(U32OfSize(n)));
    }
  }

  ghost predicate RawAccepted(ver: Version, written: nat, offset: nat, capacity: nat, name: text, count: nat,
          dataLen: nat) {
    && written < U32_MAX
    && RawInRange(ver, name, count, dataLen)
    && offset + RawTotal(ver, |name|, count, dataLen) <= capacity
    && (count > 0 ==> offset + RawTotal(ver, |name|, count, dataLen) < capacity + dataLen)
  }

  /** Header and data of a raw element at o0, or nothing that counts. */
  method PutRaw(ver: Version, buf: array<byte>, o0: nat, name: text, data: text, count: nat,
          dataType: u16) returns (rv: Status, total: nat)
    requires o0 <= buf.Length
    modifies buf
    ensures rv == Success || rv == OutOfRange
    ensures rv == Success <==>
              && RawInRange(ver, name, count, |data|)
              && o0 + RawTotal(ver, |name|, count, |data|) <= buf.Length
              && (count > 0 ==> o0 + RawTotal(ver, |name|, count, |data|) < buf.Length + |data|)
    ensures rv == Success ==> count <= U32_MAX
    ensures rv == Success ==>
              && total == RawTotal(ver, |name|, count, |data|) == |EncodeElement(ver, Raw(name, dataType, count, data))|
              && At(buf[..], o0, EncodeElement(ver, Raw(name, dataType, count, data)))
              && AgreesOutside(old(buf[..]), buf[..], o0, o0 + total)
    ensures rv != Success ==> KeepsBefore(old(buf[..]), buf[..], o0)
  {
    hide RawInRange, RawTotal, RawHeaderBytes, At, AgreesOutside, KeepsBefore, Wrote;
    ghost var s0 := buf[..];
    var o;
    rv, o, total := PutRawHeader(ver, buf, o0, name, count, dataType, |data|);
    RawSizes(ver, s0, buf[..], o0, name, data, count, dataType, rv, o);
    if rv != Success {
      return;
    }
    ghost var head := RawHeaderBytes(ver, name, dataType, count, |data|);
    if count > 0 && o >= buf.Length {
      return OutOfRange, total;
    }
    rv, o := Put(buf, Success, o, data, s0, o0, head);
    WrotePrefix(s0, buf[..], o0, head + data, rv == Success, o);
    WroteFits(s0, buf[..], o0, head + data, rv == Success, o);
    if rv == Success {
      WroteAgrees(s0, buf[..], o0, head + data, o);
    }
  }

  lemma WroteFits(s0: seq<byte>, s1: seq<byte>, o: nat, p: seq<byte>, ok: bool, next: nat)
    requires Wrote(s0, s1, o, p, ok, next)
    ensures ok <==> o + |p| <= |s0|
  {
  }

  /** The sizes around a raw element whose header has been attempted. */
  lemma RawSizes(ver: Version, s0: seq<byte>, s1: seq<byte>, o0: nat, name: text, data: text, count: nat,
          dataType: u16, rv: Status, o: nat)
    requires RawInRange(ver, name, count, |data|) ==>
               Wrote(s0, s1, o0, RawHeaderBytes(ver, name, dataType, count, |data|), rv == Success, o)
    requires !RawInRange(ver, name, count, |data|) ==> rv == OutOfRange
    ensures RawInRange(ver, name, count, |data|) ==>
              && count <= U32_MAX
              && |RawHeaderBytes(ver, name, dataType, count, |data|)| + |data| == RawTotal(ver, |name|, count, |data|)
              && (rv == Success ==> o == o0 + |RawHeaderBytes(ver, name, dataType, count, |data|)|)
              && (rv == Success <==> o0 + |RawHeaderBytes(ver, name, dataType, count, |data|)| <= |s0|)
  {
    if RawInRange(ver, name, count, |data|) {
      RawLength(ver, name, dataType, count, data);
    }
  }

  class ElementWriter {
    var buf: array<byte>
    var ver: Version
    var offset: nat
    var elementsWrittenCount: nat
    var elementsWrittenSize: nat
    var elementSizeOffset: nat
    var dataCountOffset: nat
    var elementHeaderSize: nat

    /** Where this writer started, and the elements completed since. */
    ghost var base: nat
    ghost var elems: seq<Element>

    constructor ()
      ensures fresh(buf)
    {
      buf := new byte[0];
      ver := V2;
      offset, elementsWrittenCount, elementsWrittenSize := 0, 0, 0;
      elementSizeOffset, dataCountOffset, elementHeaderSize := 0, 0, 0;
      base, elems := 0, [];
    }

    /** The buffer holds exactly the encoding of the completed elements. */
    ghost predicate Valid()
      reads this, buf
    {
      && buf.Length <= U32_MAX
      && elementsWrittenCount == |elems|
      && elementsWrittenSize == |EncodeElements(ver, elems)|
      && offset == base + elementsWrittenSize
      && At(buf[..], base, EncodeElements(ver, elems))
    }

    lemma ValidFits()
      requires Valid()
      ensures offset <= buf.Length
    {
    }

    /** A begun nested element: its header with placeholders stands at the cursor, and the
        nested writer works right behind it. */
    ghost predicate Open(h: ElementHeader, nested: ElementWriter)
      reads this, buf, nested, nested.buf
    {
      && Valid() && nested.Valid() && nested != this
      && nested.buf == buf && nested.ver == ver
      && elementHeaderSize == NestedHeaderSize(ver, h)
      && nested.base == offset + elementHeaderSize
      && elementSizeOffset == offset + PatchWidth(ver) - 4
      && dataCountOffset == nested.base - 4
      && At(buf[..], offset, NestedHeaderBytes(ver, h, 0, 0))
    }

    /** Point a caller-supplied writer at offset o of a buffer. */
    method Start(b: array<byte>, v: Version, o: nat)
      requires b.Length <= U32_MAX && o <= b.Length
      modifies this
      ensures Valid() && buf == b && ver == v && offset == base == o && elems == []
    {
      buf, ver, offset := b, v, o;
      elementsWrittenCount, elementsWrittenSize := 0, 0;
      base, elems := o, [];
    }

    lemma Extend(s: seq<byte>, b: nat, es: seq<Element>, e: Element)
      requires At(s, b, EncodeElements(ver, es))
      requires At(s, b + |EncodeElements(ver, es)|, EncodeElement(ver, e))
      ensures At(s, b, EncodeElements(ver, es + [e]))
      ensures |EncodeElements(ver, es + [e])| == |EncodeElements(ver, es)| + |EncodeElement(ver, e)|
    {
      EncodeElementsSnoc(ver, es, e);
      AtJoin(s, b, EncodeElements(ver, es), EncodeElement(ver, e));
    }

    /** Write one element with its data. A refused write changes no cursor or counter and
        nothing before the cursor. */
    method WriteRaw(name: text, data: text, count: nat, dataType: u16, elemSize: nat) returns (rv: Status)
      requires Valid()
      requires |data| == count * elemSize
      modifies this, buf
      ensures Valid() && buf == old(buf) && ver == old(ver) && base == old(base)
      ensures rv == Success <==> old(RawAccepted(ver, elementsWrittenCount, offset, buf.Length, name, count, |data|))
      ensures rv == Success ==> elems == old(elems) + [Raw(name, dataType, count, data)]
      ensures rv == Success ==> offset == old(offset) + |EncodeElement(ver, Raw(name, dataType, count, data))|
      ensures rv == Success ==> AgreesOutside(old(buf[..]), buf[..], old(offset), offset)
      ensures rv != Success ==> unchanged(this) && KeepsBefore(old(buf[..]), buf[..], offset)
    {
      hide At, AgreesOutside, KeepsBefore, RawInRange, RawTotal, EncodeElements, EncodeElement;
      ghost var s0 := buf[..];
      AtFits(s0, base, EncodeElements(ver, elems));
      KeepsRefl(s0, offset);
      if elementsWrittenCount >= U32_MAX {
        return Protocol;
      }
      var total;
      rv, total := PutRaw(ver, buf, offset, name, data, count, dataType);
      if rv != Success {
        KeptAt(s0, buf[..], offset, base, EncodeElements(ver, elems));
        return;
      }
      ghost var e := Raw(name, dataType, count, data);
      AtOutside(s0, buf[..], offset, offset + total, base, EncodeElements(ver, elems));
      Extend(buf[..], base, elems, e);
      elems := elems + [e];
      elementsWrittenCount := elementsWrittenCount + 1;
      elementsWrittenSize := elementsWrittenSize + total;
      offset := offset + total;
    }

    /** Start a nested element. On failure both writers and everything before the cursor are untouched. */
    method BeginNestedElement(h: ElementHeader, nested: ElementWriter) returns (rv: Status)
      requires Valid() && nested != this
      modifies this, nested, buf
      ensures Valid() && buf == old(buf) && ver == old(ver) && base == old(base) && elems == old(elems)
          && offset == old(offset)
      ensures rv == Success <==> elementsWrittenCount < U32_MAX && offset + NestedHeaderSize(ver, h) <= buf.Length
      ensures rv == Success ==> Open(h, nested) && nested.elems == []
      ensures rv == Success ==> AgreesOutside(old(buf[..]), buf[..], offset, nested.offset)
      ensures rv != Success ==> unchanged(this) && unchanged(nested) && KeepsBefore(old(buf[..]), buf[..], offset)
    {
      EncodeNone(ver);
      hide At, AgreesOutside, KeepsBefore, Wrote, NestedHeaderBytes, EncodeElement, EncodeElements;
      ghost var s0 := buf[..];
      ghost var written := EncodeElements(ver, elems);
      AtFits(s0, base, written);
      KeepsRefl(s0, offset);
      if elementsWrittenCount >= U32_MAX {
        return Protocol;
      }
      var o, sizeAt, countAt;
      rv, o, sizeAt, countAt := PutNestedHeader(ver, buf, offset, h);
      Begun(s0, buf[..], base, written, offset, NestedHeaderBytes(ver, h, 0, 0), rv == Success, o);
      if rv != Success {
        return;
      }
      elementSizeOffset, dataCountOffset, elementHeaderSize := sizeAt, countAt, o - offset;
      nested.Start(buf, ver, o);
    }

    /** Finish the nested element: patch its size and count, and move behind it. */
    method EndNestedElement(h: ElementHeader, nested: ElementWriter) returns (rv: Status)
      requires Open(h, nested)
      modifies this, buf
      ensures rv == Success
      ensures Valid() && buf == old(buf) && ver == old(ver) && base == old(base)
      ensures elems == old(elems) + [Nested(h, nested.elems)]
      ensures offset == old(nested.offset)
      ensures AgreesOutside(old(buf[..]), buf[..], old(offset), offset)
    {
      hide At, AgreesOutside, NestedHeaderBytes, EncodeElement, EncodeElements, NestedHeaderSize;
      ghost var e := Nested(h, nested.elems);
      var elementSize := elementHeaderSize + nested.elementsWrittenSize;
      NestedLength(ver, h, nested.elems);
      AtFits(buf[..], nested.base, EncodeElements(ver, nested.elems));
      if elementSize > U32_MAX {
        return OutOfRange;
      }
      rv := PatchNested(ver, buf, elementSizeOffset, dataCountOffset, elementSize, nested.elementsWrittenCount, base,
          elems, offset, h, nested.elems);
      if rv != Success {
        return;
      }
      Extend(buf[..], base, elems, e);
      elems := elems + [e];
      elementsWrittenCount := elementsWrittenCount + 1;
      elementsWrittenSize := elementsWrittenSize + elementSize;
      offset := offset + elementSize;
    }
  }

  /** Both patches of end_nested_element. */
  method PatchNested(ver: Version, buf: array<byte>, sizeAt: nat, countAt: nat, size: u32, count: nat,
                     ghost base: nat, ghost done: seq<Element>, ghost o: nat, ghost h: ElementHeader,
                         ghost children: seq<Element>)
    returns (rv: Status)
    requires At(buf[..], base, EncodeElements(ver, done)) && o == base + |EncodeElements(ver, done)|
    requires At(buf[..], o, NestedHeaderBytes(ver, h, 0, 0))
    requires At(buf[..], o + NestedHeaderSize(ver, h), EncodeElements(ver, children))
    requires sizeAt == o + PatchWidth(ver) - 4 && countAt == o + NestedHeaderSize(ver, h) - 4
    requires size == NestedHeaderSize(ver, h) + |EncodeElements(ver, children)| && count == |children|
    modifies buf
    ensures rv == Success
    ensures At(buf[..], base, EncodeElements(ver, done))
    ensures At(buf[..], o, EncodeElement(ver, Nested(h, children)))
    ensures AgreesOutside(old(buf[..]), buf[..], o, o + |EncodeElement(ver, Nested(h, children))|)
  {
    hide *;
    U32Exact(size);
    HeaderRoom(ver, h);
    ghost var s0 := buf[..];
    AtFits(s0, o + NestedHeaderSize(ver, h), EncodeElements(ver, children));
    rv := Patch(buf, sizeAt, LE32(size));
    if rv == Success {
      ghost var s1 := buf[..];
      rv := Patch(buf, countAt, LE32(U32OfSize(count)));
      if rv == Success {
        PatchedElement(ver, s0, s1, buf[..], base, done, o, h, children);
      }
    }
  }

  lemma EncodeNone(ver: Version)
    ensures EncodeElements(ver, []) == [] && EncodeEntries(ver, []) == []
  {
  }

  /** What a header write behind already written bytes leaves, in the terms the writers use. */
  lemma Begun(s: seq<byte>, t: seq<byte>, base: nat, written: seq<byte>, o: nat, p: seq<byte>, ok: bool, next: nat)
    requires At(s, base, written) && o == base + |written|
    requires Wrote(s, t, o, p, ok, next)
    ensures ok <==> o + |p| <= |s|
    ensures ok ==> At(t, o, p) && next == o + |p| <= |t| && AgreesOutside(s, t, o, next)
    ensures KeepsBefore(s, t, o) && At(t, base, written)
  {
    AtPrefix(s, t, o, base, written);
  }

  lemma HeaderRoom(ver: Version, h: ElementHeader)
    ensures NestedHeaderSize(ver, h) == 2 * PatchWidth(ver) + |ElementMiddle(ver, h)|
  {
    hide ElementMiddle, PatchField;
  }

  /** A placeholder header becomes the header for size n and count c when both value fields are patched. */
  lemma PatchedHeader(ver: Version, s0: seq<byte>, s1: seq<byte>, s2: seq<byte>, o: nat, h: ElementHeader, n: nat,
          c: nat)
    requires At(s0, o, NestedHeaderBytes(ver, h, 0, 0))
    requires var w := PatchWidth(ver);
             var e := o + NestedHeaderSize(ver, h);
             && AgreesOutside(s0, s1, o + w - 4, o + w) && At(s1, o + w - 4, LE32(U32OfSize(n)))
             && AgreesOutside(s1, s2, e - 4, e) && At(s2, e - 4, LE32(U32OfSize(c)))
    ensures At(s2, o, NestedHeaderBytes(ver, h, n, c))
  {
    hide At, AgreesOutside, ElementMiddle, PatchField, LE32;
    var w := PatchWidth(ver);
    var mid := ElementMiddle(ver, h);
    var m := o + w + |mid|;
    AtSplit3(s0, o, PatchField(ver, 0), mid, PatchField(ver, 0));
    PatchedField(ver, s0, s1, o, n);
    AtOutside(s0, s1, o + w - 4, o + w, o + w, mid);
    AtOutside(s0, s1, o + w - 4, o + w, m, PatchField(ver, 0));
    PatchedField(ver, s1, s2, m, c);
    AtOutside(s1, s2, m + w - 4, m + w, o, PatchField(ver, n));
    AtOutside(s1, s2, m + w - 4, m + w, o + w, mid);
    AtJoin(s2, o, PatchField(ver, n), mid);
    AtJoin(s2, o, PatchField(ver, n) + mid, PatchField(ver, c));
  }

  /** After both patches the whole nested element stands at o and nothing before it has moved. */
  lemma PatchedElement(ver: Version, s0: seq<byte>, s1: seq<byte>, s2: seq<byte>, base: nat, done: seq<Element>,
          o: nat, h: ElementHeader, children: seq<Element>)
    requires At(s0, base, EncodeElements(ver, done)) && o == base + |EncodeElements(ver, done)|
    requires At(s0, o, NestedHeaderBytes(ver, h, 0, 0))
    requires At(s0, o + NestedHeaderSize(ver, h), EncodeElements(ver, children))
    requires var w := PatchWidth(ver);
             var e := o + NestedHeaderSize(ver, h);
             && AgreesOutside(s0, s1, o + w - 4, o + w)
             && At(s1, o + w - 4, LE32(U32OfSize(NestedHeaderSize(ver, h) + |EncodeElements(ver, children)|)))
             && AgreesOutside(s1, s2, e - 4, e) && At(s2, e - 4, LE32(U32OfSize(|children|)))
    ensures At(s2, base, EncodeElements(ver, done))
    ensures At(s2, o, EncodeElement(ver, Nested(h, children)))
    ensures AgreesOutside(s0, s2, o, o + |EncodeElement(ver, Nested(h, children))|)
  {
    HeaderRoom(ver, h);
    hide At, AgreesOutside, NestedHeaderBytes, NestedHeaderSize, EncodeElements, ElementMiddle, LE32, U32OfSize;
    var w := PatchWidth(ver);
    var e := o + NestedHeaderSize(ver, h);
    var body := EncodeElements(ver, children);
    var n := NestedHeaderSize(ver, h) + |body|;
    NestedLength(ver, h, children);
    PatchedHeader(ver, s0, s1, s2, o, h, n, |children|);
    AtOutside(s0, s1, o + w - 4, o + w, e, body);
    AtOutside(s1, s2, e - 4, e, e, body);
    AtJoin(s2, o, NestedHeaderBytes(ver, h, n, |children|), body);
    AtOutside(s0, s1, o + w - 4, o + w, base, EncodeElements(ver, done));
    AtOutside(s1, s2, e - 4, e, base, EncodeElements(ver, done));
    AtFits(s0, e, body);
    AtFits(s1, e, body);
    AgreesWiden(s0, s1, o + w - 4, o + w, o, o + n);
    AgreesWiden(s1, s2, e - 4, e, o, o + n);
    AgreesTrans(s0, s1, s2, o, o + n, o, o + n);
  }

  lemma AgreesWiden(s: seq<byte>, t: seq<byte>, lo: nat, hi: nat, lo1: nat, hi1: nat)
    requires AgreesOutside(s, t, lo, hi)
    requires lo1 <= lo && hi <= hi1 <= |s|
    ensures AgreesOutside(s, t, lo1, hi1)
  {
    assert s[..lo1] == s[..lo][..lo1] == t[..lo][..lo1] == t[..lo1];
    assert s[hi1..] == s[hi..][hi1 - hi..] == t[hi..][hi1 - hi..] == t[hi1..];
  }

  lemma KeptAt(s: seq<byte>, t: seq<byte>, bound: nat, o: nat, p: seq<byte>)
    requires KeepsBefore(s, t, bound)
    requires At(s, o, p) && o + |p| <= bound
    ensures At(t, o, p)
  {
    AtPrefix(s, t, bound, o, p);
  }

  lemma WroteAgrees(s: seq<byte>, t: seq<byte>, o: nat, p: seq<byte>, next: nat)
    requires Wrote(s, t, o, p, true, next)
    ensures At(t, o, p) && next == o + |p| && AgreesOutside(s, t, o, next)
  {
  }

  class EntryWriter {
    var buf: array<byte>
    var ver: Version
    var offset: nat
    var entriesWrittenCount: nat
    var entriesWrittenSize: nat
    var entrySizeOffset: nat
    var elementCountOffset: nat
    var entryHeaderSize: nat

    ghost var base: nat
    ghost var entries: seq<Entry>

    constructor ()
      ensures fresh(buf)
    {
      buf := new byte[0];
      ver := V2;
      offset, entriesWrittenCount, entriesWrittenSize := 0, 0, 0;
      entrySizeOffset, elementCountOffset, entryHeaderSize := 0, 0, 0;
      base, entries := 0, [];
    }

    /** The buffer holds exactly the encoding of the completed entries. */
    ghost predicate Valid()
      reads this, buf
    {
      && buf.Length <= U32_MAX
      && entriesWrittenCount == |entries|
      && entriesWrittenSize == |EncodeEntries(ver, entries)|
      && offset == base + entriesWrittenSize
      && At(buf[..], base, EncodeEntries(ver, entries))
    }

    lemma ValidFits()
      requires Valid()
      ensures offset <= buf.Length
    {
    }

    ghost predicate Open(h: EntryHeader, elements: ElementWriter)
      reads this, buf, elements, elements.buf
    {
      && Valid() && elements.Valid()
      && elements.buf == buf && elements.ver == ver
      && entryHeaderSize == EntryHeaderSize(ver, h)
      && elements.base == offset + entryHeaderSize
      && entrySizeOffset == offset + PatchWidth(ver) - 4
      && elementCountOffset == elements.base - CountWidth(ver)
      && At(buf[..], offset, EntryHeaderBytes(ver, h, 0, 0))
    }

    /** Point a caller-supplied writer at offset o of a buffer. */
    method Start(b: array<byte>, v: Version, o: nat)
      requires b.Length <= U32_MAX && o <= b.Length
      modifies this
      ensures Valid() && buf == b && ver == v && offset == base == o && entries == []
    {
      buf, ver, offset := b, v, o;
      entriesWrittenCount, entriesWrittenSize := 0, 0;
      base, entries := o, [];
    }

    /** Start an entry. On failure both writers and everything before the cursor are untouched. */
    method BeginEntry(h: EntryHeader, elements: ElementWriter) returns (rv: Status)
      requires Valid()
      modifies this, elements, buf
      ensures Valid() && buf == old(buf) && ver == old(ver) && base == old(base) && entries == old(entries)
          && offset == old(offset)
      ensures rv == Success <==> entriesWrittenCount < U16_MAX && offset + EntryHeaderSize(ver, h) <= buf.Length
      ensures rv == Success ==> Open(h, elements) && elements.elems == []
      ensures rv == Success ==> AgreesOutside(old(buf[..]), buf[..], offset, elements.offset)
      ensures rv != Success ==> unchanged(this) && unchanged(elements) && KeepsBefore(old(buf[..]), buf[..], offset)
    {
      EncodeNone(ver);
      hide At, AgreesOutside, KeepsBefore, Wrote, EntryHeaderBytes, EncodeEntry, EncodeEntries, EncodeElements;
      ghost var s0 := buf[..];
      ghost var written := EncodeEntries(ver, entries);
      AtFits(s0, base, written);
      KeepsRefl(s0, offset);
      if entriesWrittenCount >= U16_MAX {
        return Protocol;
      }
      var o, sizeAt, countAt;
      rv, o, sizeAt, countAt := PutEntryHeader(ver, buf, offset, h);
      Begun(s0, buf[..], base, written, offset, EntryHeaderBytes(ver, h, 0, 0), rv == Success, o);
      if rv != Success {
        return;
      }
      entrySizeOffset, elementCountOffset, entryHeaderSize := sizeAt, countAt, o - offset;
      elements.Start(buf, ver, o);
    }

    /** Finish the entry: patch its size and element count, and move behind it. */
    method EndEntry(h: EntryHeader, elements: ElementWriter) returns (rv: Status)
      requires Open(h, elements)
      modifies this, buf
      ensures rv == Success
      ensures Valid() && buf == old(buf) && ver == old(ver) && base == old(base)
      ensures entries == old(entries) + [Entry(h, elements.elems)]
      ensures offset == old(elements.offset)
      ensures AgreesOutside(old(buf[..]), buf[..], old(offset), offset)
    {
      hide At, AgreesOutside, EntryHeaderBytes, EncodeEntry, EncodeEntries, EncodeElements, EntryHeaderSize;
      ghost var e := Entry(h, elements.elems);
      EntryLength(ver, e);
      AtFits(buf[..], elements.base, EncodeElements(ver, elements.elems));
      var entrySize := U32OfSize(entryHeaderSize + elements.elementsWrittenSize);
      rv := PatchEntry(ver, buf, entrySizeOffset, elementCountOffset, entrySize, elements.elementsWrittenCount, base,
          entries, offset, h, elements.elems);
      if rv != Success {
        return;
      }
      ExtendEntries(ver, buf[..], base, entries, e);
      entries := entries + [e];
      entriesWrittenCount := entriesWrittenCount + 1;
      entriesWrittenSize := entriesWrittenSize + entrySize;
      offset := offset + entrySize;
    }
  }

  function CountWidth(ver: Version): nat {
    if ver == V2 then 2 else 4
  }

  /** The element count of an entry as patched: a 16-bit cast in version 2. */
  function CountValue(ver: Version, n: nat): seq<byte> {
    if ver == V2 then LE16(U16OfSize(n)) else LE32(U32OfSize(n))
  }

  lemma ExtendEntries(ver: Version, s: seq<byte>, b: nat, es: seq<Entry>, e: Entry)
    requires At(s, b, EncodeEntries(ver, es))
    requires At(s, b + |EncodeEntries(ver, es)|, EncodeEntry(ver, e))
    ensures At(s, b, EncodeEntries(ver, es + [e]))
    ensures |EncodeEntries(ver, es + [e])| == |EncodeEntries(ver, es)| + |EncodeEntry(ver, e)|
  {
    EncodeEntriesSnoc(ver, es, e);
    AtJoin(s, b, EncodeEntries(ver, es), EncodeEntry(ver, e));
  }

  lemma EntryRoom(ver: Version, h: EntryHeader)
    ensures EntryHeaderSize(ver, h) == PatchWidth(ver) + |EntryMiddle(ver, h)| + |EntryCountField(ver, 0)|
    ensures |EntryCountField(ver, 0)| == if ver == V2 then 2 else 5
  {
    hide EntryMiddle, PatchField;
  }

  lemma PatchedCount(ver: Version, s: seq<byte>, t: seq<byte>, o: nat, n: nat)
    requires At(s, o, EntryCountField(ver, 0))
    requires var e := o + |EntryCountField(ver, 0)|;
             AgreesOutside(s, t, e - CountWidth(ver), e) && At(t, e - CountWidth(ver), CountValue(ver, n))
    ensures At(t, o, EntryCountField(ver, n))
  {
    if ver == V4 {
      PatchedField(ver, s, t, o, n);
    }
  }

  lemma PatchedEntryHeader(ver: Version, s0: seq<byte>, s1: seq<byte>, s2: seq<byte>, o: nat, h: EntryHeader, n: nat,
          c: nat)
    requires At(s0, o, EntryHeaderBytes(ver, h, 0, 0))
    requires var w := PatchWidth(ver);
             var e := o + EntryHeaderSize(ver, h);
             && AgreesOutside(s0, s1, o + w - 4, o + w) && At(s1, o + w - 4, LE32(U32OfSize(n)))
             && AgreesOutside(s1, s2, e - CountWidth(ver), e) && At(s2, e - CountWidth(ver), CountValue(ver, c))
    ensures At(s2, o, EntryHeaderBytes(ver, h, n, c))
  {
    hide At, AgreesOutside, EntryMiddle, PatchField, EntryCountField, CountValue, LE32;
    EntryRoom(ver, h);
    var w := PatchWidth(ver);
    var mid := EntryMiddle(ver, h);
    var m := o + w + |mid|;
    var e := o + EntryHeaderSize(ver, h);
    AtSplit3(s0, o, PatchField(ver, 0), mid, EntryCountField(ver, 0));
    PatchedField(ver, s0, s1, o, n);
    AtOutside(s0, s1, o + w - 4, o + w, o + w, mid);
    AtOutside(s0, s1, o + w - 4, o + w, m, EntryCountField(ver, 0));
    PatchedCount(ver, s1, s2, m, c);
    AtOutside(s1, s2, e - CountWidth(ver), e, o, PatchField(ver, n));
    AtOutside(s1, s2, e - CountWidth(ver), e, o + w, mid);
    AtJoin(s2, o, PatchField(ver, n), mid);
    AtJoin(s2, o, PatchField(ver, n) + mid, EntryCountField(ver, c));
  }

  /** After both patches the whole entry stands at o and nothing before it has moved. */
  lemma PatchedEntry(ver: Version, s0: seq<byte>, s1: seq<byte>, s2: seq<byte>, base: nat, done: seq<Entry>, o: nat,
          h: EntryHeader, elems: seq<Element>)
    requires At(s0, base, EncodeEntries(ver, done)) && o == base + |EncodeEntries(ver, done)|
    requires At(s0, o, EntryHeaderBytes(ver, h, 0, 0))
    requires At(s0, o + EntryHeaderSize(ver, h), EncodeElements(ver, elems))
    requires var w := PatchWidth(ver);
             var e := o + EntryHeaderSize(ver, h);
             && AgreesOutside(s0, s1, o + w - 4, o + w)
             && At(s1, o + w - 4, LE32(U32OfSize(EntryHeaderSize(ver, h) + |EncodeElements(ver, elems)|)))
             && AgreesOutside(s1, s2, e - CountWidth(ver), e) && At(s2, e - CountWidth(ver), CountValue(ver, |elems|))
    ensures At(s2, base, EncodeEntries(ver, done))
    ensures At(s2, o, EncodeEntry(ver, Entry(h, elems)))
    ensures AgreesOutside(s0, s2, o, o + |EncodeEntry(ver, Entry(h, elems))|)
  {
    EntryRoom(ver, h);
    hide At, AgreesOutside, EntryHeaderBytes, EntryHeaderSize, EncodeElements, EncodeEntries, EntryMiddle,
         EntryCountField, CountValue, LE32, U32OfSize;
    var w := PatchWidth(ver);
    var k := CountWidth(ver);
    var e := o + EntryHeaderSize(ver, h);
    var body := EncodeElements(ver, elems);
    var n := EntryHeaderSize(ver, h) + |body|;
    EntryLength(ver, Entry(h, elems));
    PatchedEntryHeader(ver, s0, s1, s2, o, h, n, |elems|);
    AtOutside(s0, s1, o + w - 4, o + w, e, body);
    AtOutside(s1, s2, e - k, e, e, body);
    AtJoin(s2, o, EntryHeaderBytes(ver, h, n, |elems|), body);
    AtOutside(s0, s1, o + w - 4, o + w, base, EncodeEntries(ver, done));
    AtOutside(s1, s2, e - k, e, base, EncodeEntries(ver, done));
    AtFits(s0, e, body);
    AtFits(s1, e, body);
    AgreesWiden(s0, s1, o + w - 4, o + w, o, o + n);
    AgreesWiden(s1, s2, e - k, e, o, o + n);
    AgreesTrans(s0, s1, s2, o, o + n, o, o + n);
  }

  lemma CountValueShape(ver: Version, n: nat)
    ensures CountValue(ver, n) == if ver == V2 then LE16(U16OfSize(n)) else LE32(U32OfSize(n))
    ensures |CountValue(ver, n)| == CountWidth(ver)
  {
  }

  /** Both patches of end_entry. */
  method PatchEntry(ver: Version, buf: array<byte>, sizeAt: nat, countAt: nat, size: u32, count: nat,
                    ghost base: nat, ghost done: seq<Entry>, ghost o: nat, ghost h: EntryHeader,
                        ghost elems: seq<Element>)
    returns (rv: Status)
    requires At(buf[..], base, EncodeEntries(ver, done)) && o == base + |EncodeEntries(ver, done)|
    requires At(buf[..], o, EntryHeaderBytes(ver, h, 0, 0))
    requires At(buf[..], o + EntryHeaderSize(ver, h), EncodeElements(ver, elems))
    requires sizeAt == o + PatchWidth(ver) - 4 && countAt == o + EntryHeaderSize(ver, h) - CountWidth(ver)
    requires size == EntryHeaderSize(ver, h) + |EncodeElements(ver, elems)| && count == |elems|
    modifies buf
    ensures rv == Success
    ensures At(buf[..], base, EncodeEntries(ver, done))
    ensures At(buf[..], o, EncodeEntry(ver, Entry(h, elems)))
    ensures AgreesOutside(old(buf[..]), buf[..], o, o + |EncodeEntry(ver, Entry(h, elems))|)
  {
    hide *;
    U32Exact(size);
    EntryRoom(ver, h);
    CountValueShape(ver, count);
    ghost var s0 := buf[..];
    AtFits(s0, o + EntryHeaderSize(ver, h), EncodeElements(ver, elems));
    rv := Patch(buf, sizeAt, LE32(size));
    if rv == Success {
      ghost var s1 := buf[..];
      if ver == V2 {
        rv := Patch(buf, countAt, LE16(U16OfSize(count)));
      } else {
        rv := Patch(buf, countAt, LE32(U32OfSize(count)));
      }
      if rv == Success {
        PatchedEntry(ver, s0, s1, buf[..], base, done, o, h, elems);
      }
    }
  }
}
