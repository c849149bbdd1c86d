/** The readers of message.c as objects whose window fields are updated in place. Every
    method is tied to the cursor functions; a failed step changes nothing. */
module Reader {
  import opened Base
  import opened Headers
  import opened MessageHeaders
  import opened Cursor
  import opened Search
  import RoundTrip
  import Tree

  class MessageReader {
    var buf: array<byte>
    var count: nat
    var version: Option<Version>

    constructor (buf: array<byte>)
      ensures this.buf == buf && version == None
    {
      this.buf, count, version := buf, 0, None;
    }

    /** reader_init: the fields are only set once every check has passed. */
    method Init(buf: array<byte>, count: nat) returns (rv: Status)
      modifies this
      ensures rv == CheckMessage(buf[..], count)
      ensures rv == Success ==> this.buf == buf && this.count == count
      ensures rv != Success ==> this.buf == old(this.buf) && this.count == old(this.count)
      ensures version == old(version)
    {
      if buf.Length < count || count < 10 {
        return OutOfRange;
      }
      if buf[..4] != RRAC {
        assert buf[..][..4] == buf[..4];
        return Protocol;
      }
      assert buf[..][..4] == buf[..4] && buf[..][4..8] == buf[4..8];
      if count < GetLE32(buf[4..8]) {
        return OutOfRange;
      }
      this.buf, this.count := buf, count;
      return Success;
    }

    /** Only reading the header fixes the version for what follows. */
    method ReadHeader() returns (info: Result<MessageInfo>)
      modifies this`version
      ensures match ParseMessage(buf[..])
              case Ok((v, i)) => info == Ok(i) && version == Some(v)
              case Err(e) => info == Err(e) && version == old(version)
    {
      var r := ParseMessage(buf[..]);
      if r.Err? {
        return Err(r.status);
      }
      version := Some(r.value.0);
      return Ok(r.value.1);
    }

    method BeginReadEntries(entries: EntryReader) returns (rv: Status)
      requires version.Some?
      modifies entries
      ensures match BeginEntries(buf[..], count, version.value)
              case Ok(c) => rv == Success && entries.buf == buf && entries.Cursor() == c
              case Err(e) => rv == e && entries.buf == old(entries.buf) && entries.Cursor() == old(entries.Cursor())
    {
      hide ReadCount, ParseMessage;
      var s := buf[..];
      var header := ParseMessage(s);
      if header.Err? {
        return header.status;
      }
      var info := header.value.1;
      var o := info.headerSize;
      var size := ReadCount(version.value, s, o);
      if size.Err? {
        return size.status;
      }
      if o + size.value.0 > count {
        return Protocol;
      }
      entries.buf, entries.ver, entries.offset, entries.count := buf, version.value, o, size.value.0;
      entries.remaining, entries.current, entries.countOffset := count - o - size.value.0, 0, info.entryCountOffset;
      return Success;
    }
  }

  class EntryReader {
    var buf: array<byte>
    var ver: Version
    var offset: nat
    var count: nat
    var remaining: nat
    var countOffset: Option<nat>
    var current: nat

    constructor (buf: array<byte>)
      ensures this.buf == buf
    {
      this.buf, ver, offset, count, remaining, countOffset, current := buf, V2, 0, 0, 0, None, 0;
    }

    function Cursor(): EntryCursor
      reads this
    {
      EntryCursor(ver, offset, count, remaining, countOffset, current)
    }

    method MoveNext() returns (rv: Status)
      modifies this
      ensures buf == old(buf)
      ensures match EntryNext(buf[..], old(Cursor()))
              case Ok(c) => rv == Success && Cursor() == c
              case Err(e) => rv == e && Cursor() == old(Cursor())
    {
      hide ReadCount, ReadCount2;
      var s := buf[..];
      if countOffset == None {
        return NoMore;
      }
      var entryCount := ReadCount2(ver, s, countOffset.value);
      if entryCount.Err? {
        return entryCount.status;
      }
      if !(current + 1 < entryCount.value.0) {
        return NoMore;
      }
      var o := offset + count;
      var size := ReadCount(ver, s, o);
      if size.Err? {
        return size.status;
      }
      if remaining < size.value.0 {
        return Protocol;
      }
      offset, count, remaining, current := o, size.value.0, remaining - size.value.0, current + 1;
      return Success;
    }

    method BeginReadElements(elements: ElementReader) returns (rv: Status)
      modifies elements
      ensures match BeginElements(buf[..], Cursor())
              case Ok(c) => rv == Success && elements.buf == buf && elements.Cursor() == c
              case Err(e) => rv == e && elements.buf == old(elements.buf) && elements.Cursor() == old(elements.Cursor())
    {
      hide ReadCount, ParseEntry;
      var s := buf[..];
      var header := ParseEntry(ver, s, offset);
      if header.Err? {
        return header.status;
      }
      var info := header.value;
      if info.elementCount == 0 {
        return NoMore;
      }
      var o := info.elementStart;
      ParseEntryAdvances(ver, s, offset);
      var size := ReadCount(ver, s, o);
      if size.Err? {
        return size.status;
      }
      if o - offset + size.value.0 > count {
        return Protocol;
      }
      elements.buf, elements.ver, elements.offset, elements.count := buf, ver, o, size.value.0;
      elements.remaining, elements.current, elements.total := count - (o - offset) - size.value.0, 0, info.elementCount;
      return Success;
    }

    /** find_element: the first element of the entry with the given name. */
    method FindElement(name: text, elements: ElementReader) returns (rv: Status)
      modifies elements
      ensures match BeginElements(buf[..], Cursor())
              case Ok(c) => elements.buf == buf && (rv, elements.Cursor()) == FindFrom(buf[..], c, name)
              case Err(e) => rv == NotFoundAtEnd(e) && elements.Cursor() == old(elements.Cursor())
    {
      hide BeginElements, FindFrom;
      rv := BeginReadElements(elements);
      if rv != Success {
        return NotFoundAtEnd(rv);
      }
      rv := elements.Scan(name);
    }
  }

  class ElementReader {
    var buf: array<byte>
    var ver: Version
    var offset: nat
    var count: nat
    var remaining: nat
    var current: nat
    var total: nat

    constructor (buf: array<byte>)
      ensures this.buf == buf
    {
      this.buf, ver, offset, count, remaining, current, total := buf, V2, 0, 0, 0, 0, 0;
    }

    function Cursor(): ElementCursor
      reads this
    {
      ElementCursor(ver, offset, count, remaining, current, total)
    }

    method MoveNext() returns (rv: Status)
      modifies this
      ensures buf == old(buf)
      ensures match ElementNext(buf[..], old(Cursor()))
              case Ok(c) => rv == Success && Cursor() == c
              case Err(e) => rv == e && Cursor() == old(Cursor())
    {
      hide ReadCount;
      if !(current + 1 < total) {
        return NoMore;
      }
      var o := offset + count;
      var size := ReadCount(ver, buf[..], o);
      if size.Err? {
        return size.status;
      }
      if remaining < size.value.0 {
        return Protocol;
      }
      offset, count, remaining, current := o, size.value.0, remaining - size.value.0, current + 1;
      return Success;
    }

    method BeginReadNestedElements(nested: ElementReader) returns (rv: Status)
      requires nested != this
      modifies nested
      ensures match BeginNested(buf[..], Cursor())
              case Ok(c) => rv == Success && nested.buf == buf && nested.Cursor() == c
              case Err(e) => rv == e && nested.buf == old(nested.buf) && nested.Cursor() == old(nested.Cursor())
      ensures var h := ParseElement(ver, buf[..], offset);
              rv == TypeMismatch <==> h.Ok? && !Tree.Nestable(h.value.elementType)
    {
      var s := buf[..];
      RoundTrip.EnteredIff(s, Cursor());
      hide ReadCount, ParseElement, SizeSub, IsContainer, Tree.Nestable;
      var header := ParseElement(ver, s, offset);
      if header.Err? {
        return header.status;
      }
      var info := header.value;
      if !IsContainer(info.elementType) {
        return TypeMismatch;
      }
      if info.dataCount == 0 {
        return NoMore;
      }
      var size := ReadCount(ver, s, info.dataStart);
      if size.Err? {
        return size.status;
      }
      var headerSize := SizeSub(info.dataStart, offset);
      if SizeSub(count, headerSize) < size.value.0 {
        return Protocol;
      }
      nested.buf, nested.ver, nested.offset, nested.count := buf, ver, info.dataStart, size.value.0;
      nested.remaining, nested.current, nested.total := SizeSub(SizeSub(count, headerSize), size.value.0), 0,
          info.dataCount;
      return Success;
    }

    /** find_nested_element: the first child with the given name. */
    method FindNestedElement(name: text, nested: ElementReader) returns (rv: Status)
      requires nested != this
      modifies nested
      ensures match BeginNested(buf[..], Cursor())
              case Ok(c) => nested.buf == buf && (rv, nested.Cursor()) == FindFrom(buf[..], c, name)
              case Err(e) => rv == NotFoundAtEnd(e) && nested.Cursor() == old(nested.Cursor())
    {
      hide BeginNested, FindFrom;
      rv := BeginReadNestedElements(nested);
      if rv != Success {
        return NotFoundAtEnd(rv);
      }
      rv := nested.Scan(name);
    }

    /** The loop both searches share: re-parse the header, compare, step on. */
    method Scan(name: text) returns (rv: Status)
      modifies this
      ensures buf == old(buf)
      ensures (rv, Cursor()) == FindFrom(buf[..], old(Cursor()), name)
    {
      hide ElementNext, ParseElement, SameFrom;
      ghost var c0 := Cursor();
      while true
        invariant buf == old(buf)
        invariant FindFrom(buf[..], Cursor(), name) == FindFrom(buf[..], c0, name)
        decreases if current < total then total - current else 0
      {
        var s := buf[..];
        var header := ParseElement(ver, s, offset);
        if header.Err? {
          return header.status;
        }
        var info := header.value;
        if info.name.len == |name| {
          var same := CompareName(info.name.off, name);
          if same.Err? {
            return same.status;
          }
          if same.value {
            return Success;
          }
        }
        NextProgress(s, Cursor());
        rv := MoveNext();
        if rv != Success {
          return NotFoundAtEnd(rv);
        }
      }
    }

    /** Sixteen bytes at a time, each piece copied out of the buffer first. */
    method CompareName(at: nat, name: text) returns (same: Result<bool>)
      ensures same == SameFrom(buf[..], at, name, 0)
    {
      var k, left := 0, |name|;
      while true
        invariant 0 <= k && 0 <= left && k + left == |name| && (left == 0 ==> |name| == 0)
        invariant SameFrom(buf[..], at, name, k) == SameFrom(buf[..], at, name, 0)
        decreases left
      {
        var piece := if left <= 16 then left else 16;
        if piece > 0 && (!(at + k < buf.Length) || at + k + piece > buf.Length) {
          return Err(OutOfRange);
        }
        if piece > 0 {
          assert buf[..][at + k..at + k + piece] == buf[at + k..at + k + piece];
          if buf[at + k..at + k + piece] != name[k..k + piece] {
            return Ok(false);
          }
        }
        left := left - piece;
        if left == 0 {
          return Ok(true);
        }
        k := k + piece;
      }
    }
  }
}
