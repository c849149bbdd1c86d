/** The writing primitives of message.c over a byte array. A chain of writes with an early
    return after each failure is a chain of Put calls: once a Put has failed, the later
    ones leave everything as it is. */
module Emit {
  import opened Base
  import opened Wire
  import opened Headers
  import opened MessageHeaders
  import opened Tree

  /** Buffer s0 became s1 by writing p from offset o on. It works exactly when p fits; on
      failure only bytes from o on may have changed. */
  ghost predicate Wrote(s0: seq<byte>, s1: seq<byte>, o: nat, p: seq<byte>, ok: bool, next: nat) {
    && |s1| == |s0| && o <= |s0| && s1[..o] == s0[..o]
    && (ok <==> o + |p| <= |s0|)
    && (ok ==> next == o + |p| && At(s1, o, p) && s1[next..] == s0[next..])
  }

  /** Everything before o is as it was. */
  ghost predicate KeepsBefore(s0: seq<byte>, s1: seq<byte>, o: nat) {
    o <= |s0| == |s1| && s1[..o] == s0[..o]
  }

  lemma KeepsRefl(s: seq<byte>, o: nat)
    requires o <= |s|
    ensures KeepsBefore(s, s, o)
  {
  }

  lemma WroteNothing(s: seq<byte>, o: nat)
    requires o <= |s|
    ensures Wrote(s, s, o, [], true, o)
  {
  }

  lemma WroteThen(s0: seq<byte>, s1: seq<byte>, s2: seq<byte>, o: nat, a: seq<byte>, o1: nat, b: seq<byte>, ok: bool,
          o2: nat)
    requires Wrote(s0, s1, o, a, true, o1)
    requires Wrote(s1, s2, o1, b, ok, o2)
    ensures Wrote(s0, s2, o, a + b, ok, o2)
  {
    assert s2[..o] == s2[..o1][..o] == s1[..o1][..o] == s0[..o];
    if ok {
      AtPrefix(s1, s2, o1, o, a);
      AtJoin(s2, o, a, b);
      assert s2[o2..] == s1[o2..] == s1[o1..][o2 - o1..] == s0[o1..][o2 - o1..] == s0[o2..];
    }
  }

  lemma WroteFailed(s0: seq<byte>, s1: seq<byte>, o: nat, a: seq<byte>, o1: nat, b: seq<byte>)
    requires Wrote(s0, s1, o, a, false, o1)
    ensures Wrote(s0, s1, o, a + b, false, o1)
  {
  }

  /** copy_from_mem into a one-segment buffer, then the offset moves on. */
  method Put(buf: array<byte>, rv0: Status, o0: nat, p: seq<byte>, ghost s0: seq<byte>, ghost start: nat,
          ghost acc: seq<byte>)
    returns (rv: Status, o: nat)
    requires Wrote(s0, buf[..], start, acc, rv0 == Success, o0)
    modifies buf
    ensures Wrote(s0, buf[..], start, acc + p, rv == Success, o)
    ensures rv == rv0 || (rv0 == Success && rv == OutOfRange)
  {
    ghost var s1 := buf[..];
    if rv0 != Success {
      WroteFailed(s0, s1, start, acc, o0, p);
      return rv0, o0;
    }
    if o0 + |p| > buf.Length {
      return OutOfRange, o0;
    }
    forall i | 0 <= i < |p| {
      buf[o0 + i] := p[i];
    }
    assert Wrote(s1, buf[..], o0, p, true, o0 + |p|);
    WroteThen(s0, s1, buf[..], start, acc, o0, p, true, o0 + |p|);
    return Success, o0 + |p|;
  }

  method PutUintX(buf: array<byte>, rv0: Status, o0: nat, v: u32, ghost s0: seq<byte>, ghost start: nat,
          ghost acc: seq<byte>)
    returns (rv: Status, o: nat)
    requires Wrote(s0, buf[..], start, acc, rv0 == Success, o0)
    modifies buf
    ensures Wrote(s0, buf[..], start, acc + UintX(v), rv == Success, o)
    ensures rv == rv0 || (rv0 == Success && rv == OutOfRange)
  {
    hide Wrote, LE16, LE32;
    if v <= 252 {
      rv, o := Put(buf, rv0, o0, [v as byte], s0, start, acc);
    } else if v <= U16_MAX {
      rv, o := Put(buf, rv0, o0, [253], s0, start, acc);
      rv, o := Put(buf, rv, o, LE16(v), s0, start, acc + [253]);
      ConcatAssoc(acc, [253], LE16(v));
    } else {
      rv, o := Put(buf, rv0, o0, [254], s0, start, acc);
      rv, o := Put(buf, rv, o, LE32(v), s0, start, acc + [254]);
      ConcatAssoc(acc, [254], LE32(v));
    }
  }

  method PutPadded(buf: array<byte>, rv0: Status, o0: nat, v: u32, ghost s0: seq<byte>, ghost start: nat,
          ghost acc: seq<byte>)
    returns (rv: Status, o: nat)
    requires Wrote(s0, buf[..], start, acc, rv0 == Success, o0)
    modifies buf
    ensures Wrote(s0, buf[..], start, acc + PaddedUintX(v), rv == Success, o)
    ensures rv == rv0 || (rv0 == Success && rv == OutOfRange)
  {
    hide Wrote, LE32;
    rv, o := Put(buf, rv0, o0, [254], s0, start, acc);
    rv, o := Put(buf, rv, o, LE32(v), s0, start, acc + [254]);
    ConcatAssoc(acc, [254], LE32(v));
  }

  method PutIntX(buf: array<byte>, rv0: Status, o0: nat, v: i32, ghost s0: seq<byte>, ghost start: nat,
          ghost acc: seq<byte>)
    returns (rv: Status, o: nat)
    requires Wrote(s0, buf[..], start, acc, rv0 == Success, o0)
    modifies buf
    ensures Wrote(s0, buf[..], start, acc + IntX(v), rv == Success, o)
    ensures rv == rv0 || (rv0 == Success && rv == OutOfRange)
  {
    hide Wrote, LE16, LE32;
    if -0x80 <= v <= 124 {
      rv, o := Put(buf, rv0, o0, [(v % 0x100) as byte], s0, start, acc);
    } else if -0x8000 <= v <= 0x7FFF {
      rv, o := Put(buf, rv0, o0, [125], s0, start, acc);
      rv, o := Put(buf, rv, o, LE16(v % 0x1_0000), s0, start, acc + [125]);
      ConcatAssoc(acc, [125], LE16(v % 0x1_0000));
    } else {
      rv, o := Put(buf, rv0, o0, [126], s0, start, acc);
      rv, o := Put(buf, rv, o, LE32(v % 0x1_0000_0000), s0, start, acc + [126]);
      ConcatAssoc(acc, [126], LE32(v % 0x1_0000_0000));
    }
  }

  /** Version 2 string: a truncated 16-bit length, then the text unless it is empty. */
  method PutStr2(buf: array<byte>, rv0: Status, o0: nat, t: text, ghost s0: seq<byte>, ghost start: nat,
          ghost acc: seq<byte>)
    returns (rv: Status, o: nat)
    requires Wrote(s0, buf[..], start, acc, rv0 == Success, o0)
    modifies buf
    ensures Wrote(s0, buf[..], start, acc + Str2(t), rv == Success, o)
    ensures rv == rv0 || (rv0 == Success && rv == OutOfRange)
  {
    hide Wrote, LE16;
    rv, o := Put(buf, rv0, o0, LE16(U16OfSize(|t|)), s0, start, acc);
    if |t| > 0 {
      rv, o := Put(buf, rv, o, t, s0, start, acc + LE16(U16OfSize(|t|)));
    }
    ConcatAssoc(acc, LE16(U16OfSize(|t|)), t);
    assert t == [] ==> LE16(U16OfSize(|t|)) + t == LE16(U16OfSize(|t|));
  }

  method PutStrX(buf: array<byte>, rv0: Status, o0: nat, t: text, ghost s0: seq<byte>, ghost start: nat,
          ghost acc: seq<byte>)
    returns (rv: Status, o: nat)
    requires Wrote(s0, buf[..], start, acc, rv0 == Success, o0)
    modifies buf
    ensures Wrote(s0, buf[..], start, acc + StrX(t), rv == Success, o)
    ensures rv == rv0 || (rv0 == Success && rv == OutOfRange)
  {
    hide Wrote, UintX;
    rv, o := PutUintX(buf, rv0, o0, |t|, s0, start, acc);
    if |t| > 0 {
      rv, o := Put(buf, rv, o, t, s0, start, acc + UintX(|t|));
    }
    ConcatAssoc(acc, UintX(|t|), t);
    assert t == [] ==> UintX(|t|) + t == UintX(|t|);
  }

  // Optional fields: written only when their flag was set.

  method PutWhenStr(buf: array<byte>, rv0: Status, o0: nat, c: bool, t: text, ghost s0: seq<byte>, ghost start: nat,
          ghost acc: seq<byte>)
    returns (rv: Status, o: nat)
    requires Wrote(s0, buf[..], start, acc, rv0 == Success, o0)
    modifies buf
    ensures Wrote(s0, buf[..], start, acc + WhenStr(c, t), rv == Success, o)
    ensures rv == rv0 || (rv0 == Success && rv == OutOfRange)
  {
    hide Wrote, StrX;
    rv, o := rv0, o0;
    if c {
      rv, o := PutStrX(buf, rv, o, t, s0, start, acc);
    } else {
      assert acc + [] == acc;
    }
  }

  method PutWhenUintX(buf: array<byte>, rv0: Status, o0: nat, c: bool, v: u32, ghost s0: seq<byte>, ghost start: nat,
          ghost acc: seq<byte>)
    returns (rv: Status, o: nat)
    requires Wrote(s0, buf[..], start, acc, rv0 == Success, o0)
    modifies buf
    ensures Wrote(s0, buf[..], start, acc + WhenUintX(c, v), rv == Success, o)
    ensures rv == rv0 || (rv0 == Success && rv == OutOfRange)
  {
    hide Wrote, UintX;
    rv, o := rv0, o0;
    if c {
      rv, o := PutUintX(buf, rv, o, v, s0, start, acc);
    } else {
      assert acc + [] == acc;
    }
  }

  method PutWhenIntX(buf: array<byte>, rv0: Status, o0: nat, c: bool, v: i32, ghost s0: seq<byte>, ghost start: nat,
          ghost acc: seq<byte>)
    returns (rv: Status, o: nat)
    requires Wrote(s0, buf[..], start, acc, rv0 == Success, o0)
    modifies buf
    ensures Wrote(s0, buf[..], start, acc + WhenIntX(c, v), rv == Success, o)
    ensures rv == rv0 || (rv0 == Success && rv == OutOfRange)
  {
    hide Wrote, IntX;
    rv, o := rv0, o0;
    if c {
      rv, o := PutIntX(buf, rv, o, v, s0, start, acc);
    } else {
      assert acc + [] == acc;
    }
  }

  method PutWhenU16(buf: array<byte>, rv0: Status, o0: nat, c: bool, v: u16, ghost s0: seq<byte>, ghost start: nat,
          ghost acc: seq<byte>)
    returns (rv: Status, o: nat)
    requires Wrote(s0, buf[..], start, acc, rv0 == Success, o0)
    modifies buf
    ensures Wrote(s0, buf[..], start, acc + WhenU16(c, v), rv == Success, o)
    ensures rv == rv0 || (rv0 == Success && rv == OutOfRange)
  {
    hide Wrote, LE16;
    rv, o := rv0, o0;
    if c {
      rv, o := Put(buf, rv, o, LE16(v), s0, start, acc);
    } else {
      assert acc + [] == acc;
    }
  }

  /** A size or count placeholder; the patch offset is behind the tag byte in version 4. */
  method PutPatchField(ver: Version, buf: array<byte>, rv0: Status, o0: nat, n: u32, ghost s0: seq<byte>,
          ghost start: nat, ghost acc: seq<byte>)
    returns (rv: Status, o: nat, patch: nat)
    requires Wrote(s0, buf[..], start, acc, rv0 == Success, o0)
    modifies buf
    ensures Wrote(s0, buf[..], start, acc + PatchField(ver, n), rv == Success, o)
    ensures rv == rv0 || (rv0 == Success && rv == OutOfRange)
    ensures patch == if ver == V2 then o0 else o0 + 1
  {
    hide Wrote, LE32, PaddedUintX;
    if ver == V2 {
      patch := o0;
      rv, o := Put(buf, rv0, o0, LE32(n), s0, start, acc);
    } else {
      patch := o0 + 1;
      rv, o := PutPadded(buf, rv0, o0, n, s0, start, acc);
    }
  }

  /** A size or count that is final when written. */
  method PutFinalField(ver: Version, buf: array<byte>, rv0: Status, o0: nat, n: u32, ghost s0: seq<byte>,
          ghost start: nat, ghost acc: seq<byte>)
    returns (rv: Status, o: nat)
    requires Wrote(s0, buf[..], start, acc, rv0 == Success, o0)
    modifies buf
    ensures Wrote(s0, buf[..], start, acc + FinalField(ver, n), rv == Success, o)
    ensures rv == rv0 || (rv0 == Success && rv == OutOfRange)
  {
    hide Wrote, LE32, UintX;
    if ver == V2 {
      rv, o := Put(buf, rv0, o0, LE32(n), s0, start, acc);
    } else {
      rv, o := PutUintX(buf, rv0, o0, n, s0, start, acc);
    }
  }

  /** The element header fields between the size field and the count field. */
  method PutElementMiddle(ver: Version, buf: array<byte>, rv0: Status, o0: nat, h: ElementHeader,
          ghost s0: seq<byte>, ghost start: nat, ghost acc: seq<byte>)
    returns (rv: Status, o: nat)
    requires Wrote(s0, buf[..], start, acc, rv0 == Success, o0)
    modifies buf
    ensures Wrote(s0, buf[..], start, acc + ElementMiddle(ver, h), rv == Success, o)
    ensures rv == rv0 || (rv0 == Success && rv == OutOfRange)
  {
    ghost var s1 := buf[..];
    if rv0 != Success {
      WroteFailed(s0, s1, start, acc, o0, ElementMiddle(ver, h));
      return rv0, o0;
    }
    WroteNothing(s1, o0);
    if ver == V2 {
      rv, o := PutElementMiddle2(buf, o0, h);
    } else {
      rv, o := PutElementMiddle4(buf, o0, h);
    }
    WroteThen(s0, s1, buf[..], start, acc, o0, ElementMiddle(ver, h), rv == Success, o);
  }

  method PutElementMiddle2(buf: array<byte>, o0: nat, h: ElementHeader) returns (rv: Status, o: nat)
    requires o0 <= buf.Length
    modifies buf
    ensures Wrote(old(buf[..]), buf[..], o0, ElementMiddle2(h), rv == Success, o)
    ensures rv == Success || rv == OutOfRange
  {
    hide Wrote, LE16, Str2;
    ghost var s0 := buf[..];
    WroteNothing(s0, o0);
    ghost var a1 := Str2(h.name);
    ghost var a2 := a1 + LE16(h.elementType);
    ghost var a3 := a2 + Str2(h.typeName);
    assert [] + a1 == a1;
    rv, o := PutStr2(buf, Success, o0, h.name, s0, o0, []);
    rv, o := Put(buf, rv, o, LE16(h.elementType), s0, o0, a1);
    rv, o := PutStr2(buf, rv, o, h.typeName, s0, o0, a2);
    rv, o := PutStr2(buf, rv, o, h.metadata, s0, o0, a3);
  }

  method PutElementMiddle4(buf: array<byte>, o0: nat, h: ElementHeader) returns (rv: Status, o: nat)
    requires o0 <= buf.Length
    modifies buf
    ensures Wrote(old(buf[..]), buf[..], o0, ElementMiddle4(h), rv == Success, o)
    ensures rv == Success || rv == OutOfRange
  {
    hide Wrote, LE16, WhenStr, WhenUintX, WhenIntX, ElementFlags;
    ghost var s0 := buf[..];
    WroteNothing(s0, o0);
    ghost var a1 := [ElementFlags(h)];
    ghost var a2 := a1 + WhenStr(|h.name| > 0, h.name);
    ghost var a3 := a2 + WhenUintX(h.nameCode != 0, h.nameCode);
    ghost var a4 := a3 + WhenIntX(h.number != 0, h.number);
    ghost var a5 := a4 + LE16(h.elementType);
    ghost var a6 := a5 + WhenStr(|h.typeName| > 0, h.typeName);
    ghost var a7 := a6 + WhenUintX(h.typeNameCode != 0, h.typeNameCode);
    assert [] + a1 == a1;
    rv, o := Put(buf, Success, o0, [ElementFlags(h)], s0, o0, []);
    rv, o := PutWhenStr(buf, rv, o, |h.name| > 0, h.name, s0, o0, a1);
    rv, o := PutWhenUintX(buf, rv, o, h.nameCode != 0, h.nameCode, s0, o0, a2);
    rv, o := PutWhenIntX(buf, rv, o, h.number != 0, h.number, s0, o0, a3);
    rv, o := Put(buf, rv, o, LE16(h.elementType), s0, o0, a4);
    rv, o := PutWhenStr(buf, rv, o, |h.typeName| > 0, h.typeName, s0, o0, a5);
    rv, o := PutWhenUintX(buf, rv, o, h.typeNameCode != 0, h.typeNameCode, s0, o0, a6);
    rv, o := PutWhenStr(buf, rv, o, |h.metadata| > 0, h.metadata, s0, o0, a7);
  }

  method PutEntryMiddle2(buf: array<byte>, o0: nat, h: EntryHeader) returns (rv: Status, o: nat)
    requires o0 <= buf.Length
    modifies buf
    ensures Wrote(old(buf[..]), buf[..], o0, EntryMiddle2(h), rv == Success, o)
    ensures rv == Success || rv == OutOfRange
  {
    hide Wrote, LE16, LE32, Str2;
    ghost var s0 := buf[..];
    WroteNothing(s0, o0);
    ghost var a1 := LE16(h.entryType);
    ghost var a2 := a1 + LE16(0);
    ghost var a3 := a2 + Str2(h.servicePath);
    ghost var a4 := a3 + Str2(h.memberName);
    ghost var a5 := a4 + LE32(h.requestId);
    ghost var a6 := a5 + LE16(h.error);
    assert [] + a1 == a1;
    rv, o := Put(buf, Success, o0, LE16(h.entryType), s0, o0, []);
    rv, o := Put(buf, rv, o, LE16(0), s0, o0, a1);
    rv, o := PutStr2(buf, rv, o, h.servicePath, s0, o0, a2);
    rv, o := PutStr2(buf, rv, o, h.memberName, s0, o0, a3);
    rv, o := Put(buf, rv, o, LE32(h.requestId), s0, o0, a4);
    rv, o := Put(buf, rv, o, LE16(h.error), s0, o0, a5);
    rv, o := PutStr2(buf, rv, o, h.metadata, s0, o0, a6);
  }

  method PutEntryMiddle4(buf: array<byte>, o0: nat, h: EntryHeader) returns (rv: Status, o: nat)
    requires o0 <= buf.Length
    modifies buf
    ensures Wrote(old(buf[..]), buf[..], o0, EntryMiddle4(h), rv == Success, o)
    ensures rv == Success || rv == OutOfRange
  {
    hide Wrote, LE16, WhenStr, WhenUintX, WhenU16, EntryFlags;
    ghost var s0 := buf[..];
    WroteNothing(s0, o0);
    ghost var a1 := [EntryFlags(h)];
    ghost var a2 := a1 + LE16(h.entryType);
    ghost var a3 := a2 + WhenStr(|h.servicePath| > 0, h.servicePath);
    ghost var a4 := a3 + WhenUintX(h.servicePathCode != 0, h.servicePathCode);
    ghost var a5 := a4 + WhenStr(|h.memberName| > 0, h.memberName);
    ghost var a6 := a5 + WhenUintX(h.requestId != 0, h.requestId);
    ghost var a7 := a6 + WhenU16(h.error != 0, h.error);
    assert [] + a1 == a1;
    rv, o := Put(buf, Success, o0, [EntryFlags(h)], s0, o0, []);
    rv, o := Put(buf, rv, o, LE16(h.entryType), s0, o0, a1);
    rv, o := PutWhenStr(buf, rv, o, |h.servicePath| > 0, h.servicePath, s0, o0, a2);
    rv, o := PutWhenUintX(buf, rv, o, h.servicePathCode != 0, h.servicePathCode, s0, o0, a3);
    rv, o := PutWhenStr(buf, rv, o, |h.memberName| > 0, h.memberName, s0, o0, a4);
    rv, o := PutWhenUintX(buf, rv, o, h.requestId != 0, h.requestId, s0, o0, a5);
    rv, o := PutWhenU16(buf, rv, o, h.error != 0, h.error, s0, o0, a6);
    rv, o := PutWhenStr(buf, rv, o, |h.metadata| > 0, h.metadata, s0, o0, a7);
  }

  method PutEntryMiddle(ver: Version, buf: array<byte>, rv0: Status, o0: nat, h: EntryHeader, ghost s0: seq<byte>,
          ghost start: nat, ghost acc: seq<byte>)
    returns (rv: Status, o: nat)
    requires Wrote(s0, buf[..], start, acc, rv0 == Success, o0)
    modifies buf
    ensures Wrote(s0, buf[..], start, acc + EntryMiddle(ver, h), rv == Success, o)
    ensures rv == rv0 || (rv0 == Success && rv == OutOfRange)
  {
    ghost var s1 := buf[..];
    if rv0 != Success {
      WroteFailed(s0, s1, start, acc, o0, EntryMiddle(ver, h));
      return rv0, o0;
    }
    WroteNothing(s1, o0);
    if ver == V2 {
      rv, o := PutEntryMiddle2(buf, o0, h);
    } else {
      rv, o := PutEntryMiddle4(buf, o0, h);
    }
    WroteThen(s0, s1, buf[..], start, acc, o0, EntryMiddle(ver, h), rv == Success, o);
  }

  /** write_header2_ex / write_header4_ex of the element writer: placeholders for size and
      count, whose patch offsets are reported. */
  method PutNestedHeader(ver: Version, buf: array<byte>, o0: nat, h: ElementHeader)
    returns (rv: Status, o: nat, sizeOffset: nat, countOffset: nat)
    requires o0 <= buf.Length
    modifies buf
    ensures Wrote(old(buf[..]), buf[..], o0, NestedHeaderBytes(ver, h, 0, 0), rv == Success, o)
    ensures rv == Success || rv == OutOfRange
    ensures rv == Success ==> sizeOffset == o0 + PatchWidth(ver) - 4 && countOffset == o - 4
  {
    ghost var s0 := buf[..];
    WroteNothing(s0, o0);
    hide Wrote, PatchField, ElementMiddle;
    ghost var a1 := PatchField(ver, 0);
    assert [] + a1 == a1;
    ghost var a2 := a1 + ElementMiddle(ver, h);
    rv, o, sizeOffset := PutPatchField(ver, buf, Success, o0, 0, s0, o0, []);
    rv, o := PutElementMiddle(ver, buf, rv, o, h, s0, o0, a1);
    var o1 := o;
    rv, o, countOffset := PutPatchField(ver, buf, rv, o, 0, s0, o0, a2);
    if rv == Success {
      WroteEnd(s0, buf[..], o0, a2 + PatchField(ver, 0), o);
    }
  }

  lemma WroteEnd(s0: seq<byte>, s1: seq<byte>, o: nat, p: seq<byte>, next: nat)
    requires Wrote(s0, s1, o, p, true, next)
    ensures next == o + |p| && next <= |s1|
  {
  }

  /** write_header2_ex / write_header4_ex of the entry writer. */
  method PutEntryHeader(ver: Version, buf: array<byte>, o0: nat, h: EntryHeader)
    returns (rv: Status, o: nat, sizeOffset: nat, countOffset: nat)
    requires o0 <= buf.Length
    modifies buf
    ensures Wrote(old(buf[..]), buf[..], o0, EntryHeaderBytes(ver, h, 0, 0), rv == Success, o)
    ensures rv == Success || rv == OutOfRange
    ensures rv == Success ==> sizeOffset == o0 + PatchWidth(ver) - 4 && countOffset == o - if ver == V2 then 2 else 4
  {
    ghost var s0 := buf[..];
    WroteNothing(s0, o0);
    hide Wrote, PatchField, EntryMiddle, LE16;
    ghost var a1 := PatchField(ver, 0);
    assert [] + a1 == a1;
    ghost var a2 := a1 + EntryMiddle(ver, h);
    rv, o, sizeOffset := PutPatchField(ver, buf, Success, o0, 0, s0, o0, []);
    rv, o := PutEntryMiddle(ver, buf, rv, o, h, s0, o0, a1);
    if ver == V2 {
      countOffset := o;
      rv, o := Put(buf, rv, o, LE16(0), s0, o0, a2);
    } else {
      rv, o, countOffset := PutPatchField(ver, buf, rv, o, 0, s0, o0, a2);
    }
    if rv == Success {
      WroteEnd(s0, buf[..], o0, a2 + EntryCountField(ver, 0), o);
    }
  }

  lemma DataMiddle2(name: text, dataType: u16)
    ensures ElementMiddle2(DataHeader(name, dataType)) == Str2(name) + LE16(dataType) + LE16(0) + LE16(0)
  {
    hide LE16;
    assert Str2([]) == LE16(0) + [] == LE16(0);
  }

  lemma DataMiddle4(name: text, dataType: u16)
    ensures ElementMiddle4(DataHeader(name, dataType))
        == [if |name| > 0 then 1 else 0] + WhenStr(|name| > 0, name) + LE16(dataType)
  {
    hide LE16, StrX;
    var a := [if |name| > 0 then 1 else 0] + WhenStr(|name| > 0, name);
    assert a + [] == a;
    assert a + LE16(dataType) + [] == a + LE16(dataType);
  }

  method PutDataMiddle2(buf: array<byte>, o0: nat, name: text, dataType: u16) returns (rv: Status, o: nat)
    requires o0 <= buf.Length
    modifies buf
    ensures Wrote(old(buf[..]), buf[..], o0, ElementMiddle2(DataHeader(name, dataType)), rv == Success, o)
    ensures rv == Success || rv == OutOfRange
  {
    DataMiddle2(name, dataType);
    hide Wrote, LE16, Str2, ElementMiddle2;
    ghost var s0 := buf[..];
    WroteNothing(s0, o0);
    ghost var a1 := Str2(name);
    assert [] + a1 == a1;
    rv, o := PutStr2(buf, Success, o0, name, s0, o0, []);
    rv, o := Put(buf, rv, o, LE16(dataType), s0, o0, a1);
    rv, o := Put(buf, rv, o, LE16(0), s0, o0, a1 + LE16(dataType));
    rv, o := Put(buf, rv, o, LE16(0), s0, o0, a1 + LE16(dataType) + LE16(0));
  }

  method PutDataMiddle4(buf: array<byte>, o0: nat, name: text, dataType: u16) returns (rv: Status, o: nat)
    requires o0 <= buf.Length
    modifies buf
    ensures Wrote(old(buf[..]), buf[..], o0, ElementMiddle4(DataHeader(name, dataType)), rv == Success, o)
    ensures rv == Success || rv == OutOfRange
  {
    DataMiddle4(name, dataType);
    hide Wrote, LE16, StrX, ElementMiddle4;
    ghost var s0 := buf[..];
    WroteNothing(s0, o0);
    var flags: byte := if |name| > 0 then 1 else 0;
    ghost var a1 := [flags];
    assert [] + a1 == a1;
    rv, o := Put(buf, Success, o0, [flags], s0, o0, []);
    rv, o := PutWhenStr(buf, rv, o, |name| > 0, name, s0, o0, a1);
    rv, o := Put(buf, rv, o, LE16(dataType), s0, o0, a1 + WhenStr(|name| > 0, name));
  }

  /** Name, type and the empty remaining fields of a raw element. */
  method PutDataMiddle(ver: Version, buf: array<byte>, rv0: Status, o0: nat, name: text, dataType: u16,
          ghost s0: seq<byte>, ghost start: nat, ghost acc: seq<byte>)
    returns (rv: Status, o: nat)
    requires Wrote(s0, buf[..], start, acc, rv0 == Success, o0)
    modifies buf
    ensures Wrote(s0, buf[..], start, acc + ElementMiddle(ver, DataHeader(name, dataType)), rv == Success, o)
    ensures rv == rv0 || (rv0 == Success && rv == OutOfRange)
  {
    ghost var s1 := buf[..];
    if rv0 != Success {
      WroteFailed(s0, s1, start, acc, o0, ElementMiddle(ver, DataHeader(name, dataType)));
      return rv0, o0;
    }
    if ver == V2 {
      rv, o := PutDataMiddle2(buf, o0, name, dataType);
    } else {
      rv, o := PutDataMiddle4(buf, o0, name, dataType);
    }
    hide ElementMiddle;
    WroteThen(s0, s1, buf[..], start, acc, o0, ElementMiddle(ver, DataHeader(name, dataType)), rv == Success, o);
  }

  /** The element size of write_data_header2_ex and write_data_header4_ex, with their range checks. */
  method RawSize(ver: Version, name: text, count: nat, dataLen: nat) returns (rv: Status, total: nat)
    ensures rv == Success || rv == OutOfRange
    ensures rv == Success && count <= U32_MAX <==> RawInRange(ver, name, count, dataLen)
    ensures rv == Success && count <= U32_MAX ==> total == RawTotal(ver, |name|, count, dataLen) <= U32_MAX
    ensures rv == Success ==> total <= U32_MAX
  {
    total := 0;
    if ver == V2 {
      if |name| > U16_MAX {
        return OutOfRange, 0;
      }
      total := 16 + |name| + dataLen;
      if total > U32_MAX {
        return OutOfRange, 0;
      }
      return Success, total;
    }
    total := 3;
    if |name| > 0 {
      total := total + UintXSize(|name|) + |name|;
    }
    if count > U32_MAX {
      return OutOfRange, 0;
    }
    total := total + UintXSize(count) + dataLen;
    if total > U32_MAX {
      return OutOfRange, 0;
    }
    var plus := LenPlusUintX(total);
    if plus.Err? {
      return plus.status, 0;
    }
    return Success, total + plus.value.1;
  }

  method PutRawFront(ver: Version, buf: array<byte>, o0: nat, name: text, dataType: u16,
          total: u32) returns (rv: Status, o: nat)
    requires o0 <= buf.Length
    modifies buf
    ensures Wrote(old(buf[..]), buf[..], o0, FinalField(ver, total) + ElementMiddle(ver, DataHeader(name, dataType)),
        rv == Success, o)
    ensures rv == Success || rv == OutOfRange
  {
    ghost var s0 := buf[..];
    WroteNothing(s0, o0);
    hide Wrote, FinalField, ElementMiddle;
    assert [] + FinalField(ver, total) == FinalField(ver, total);
    rv, o := PutFinalField(ver, buf, Success, o0, total, s0, o0, []);
    rv, o := PutDataMiddle(ver, buf, rv, o, name, dataType, s0, o0, FinalField(ver, total));
  }

  lemma RawHeaderShape(ver: Version, name: text, dataType: u16, count: u32, dataLen: nat)
    requires RawTotal(ver, |name|, count, dataLen) <= U32_MAX
    ensures RawHeaderBytes(ver, name, dataType, count, dataLen)
         == FinalField(ver, RawTotal(ver, |name|, count, dataLen)) + ElementMiddle(ver, DataHeader(name, dataType))
             + FinalField(ver, count)
  {
    hide FinalField, ElementMiddle, RawTotal;
  }

  /** write_data_header2_ex / write_data_header4_ex: the whole size is predicted first; version 2
      checks the element count only after most of the header is out. */
  method PutRawHeader(ver: Version, buf: array<byte>, o0: nat, name: text, count: nat, dataType: u16, dataLen: nat)
    returns (rv: Status, o: nat, total: nat)
    requires o0 <= buf.Length
    modifies buf
    ensures KeepsBefore(old(buf[..]), buf[..], o0)
    ensures rv == Success || rv == OutOfRange
    ensures RawInRange(ver, name, count, dataLen) ==>
              && Wrote(old(buf[..]), buf[..], o0, RawHeaderBytes(ver, name, dataType, count, dataLen), rv == Success, o)
              && total == RawTotal(ver, |name|, count, dataLen)
    ensures !RawInRange(ver, name, count, dataLen) ==> rv == OutOfRange
  {
    KeepsRefl(buf[..], o0);
    hide Wrote, KeepsBefore, FinalField, ElementMiddle, RawInRange, RawTotal, RawHeaderBytes, DataHeader;
    o := o0;
    rv, total := RawSize(ver, name, count, dataLen);
    if rv != Success {
      return;
    }
    ghost var s0 := buf[..];
    ghost var a2 := FinalField(ver, total) + ElementMiddle(ver, DataHeader(name, dataType));
    rv, o := PutRawFront(ver, buf, o0, name, dataType, total);
    WrotePrefix(s0, buf[..], o0, a2, rv == Success, o);
    if count > U32_MAX {
      return OutOfRange, o, total;
    }
    RawHeaderShape(ver, name, dataType, count, dataLen);
    rv, o := PutFinalField(ver, buf, rv, o, count, s0, o0, a2);
    WrotePrefix(s0, buf[..], o0, a2 + FinalField(ver, count), rv == Success, o);
  }

  lemma WrotePrefix(s0: seq<byte>, s1: seq<byte>, o: nat, p: seq<byte>, ok: bool, next: nat)
    requires Wrote(s0, s1, o, p, ok, next)
    ensures KeepsBefore(s0, s1, o)
  {
  }

  // ---- message headers ----

  method PutMiddle2(buf: array<byte>, o0: nat, h: MessageHeader) returns (rv: Status, o: nat)
    requires o0 <= buf.Length
    modifies buf
    ensures Wrote(old(buf[..]), buf[..], o0, Header2Middle(h), rv == Success, o)
    ensures rv == Success || rv == OutOfRange
  {
    hide Wrote, LE16, LE32, Str2, U16OfSize;
    ghost var s0 := buf[..];
    WroteNothing(s0, o0);
    var headerSize := U16OfSize(HeaderSize2(h));
    ghost var a1 := LE16(2);
    ghost var a2 := a1 + LE16(headerSize);
    ghost var a3 := a2 + h.senderNode;
    ghost var a4 := a3 + h.receiverNode;
    ghost var a5 := a4 + LE32(h.senderEndpoint);
    ghost var a6 := a5 + LE32(h.receiverEndpoint);
    ghost var a7 := a6 + Str2(h.senderName);
    ghost var a8 := a7 + Str2(h.receiverName);
    assert [] + a1 == a1;
    rv, o := Put(buf, Success, o0, LE16(2), s0, o0, []);
    rv, o := Put(buf, rv, o, LE16(headerSize), s0, o0, a1);
    rv, o := Put(buf, rv, o, h.senderNode, s0, o0, a2);
    rv, o := Put(buf, rv, o, h.receiverNode, s0, o0, a3);
    rv, o := Put(buf, rv, o, LE32(h.senderEndpoint), s0, o0, a4);
    rv, o := Put(buf, rv, o, LE32(h.receiverEndpoint), s0, o0, a5);
    rv, o := PutStr2(buf, rv, o, h.senderName, s0, o0, a6);
    rv, o := PutStr2(buf, rv, o, h.receiverName, s0, o0, a7);
    rv, o := PutStr2(buf, rv, o, h.metadata, s0, o0, a8);
  }

  /** The magic, the message size placeholder and the version 2 fields up to the entry count. */
  method PutFront2(buf: array<byte>, o0: nat, h: MessageHeader) returns (rv: Status, o: nat)
    requires o0 <= buf.Length
    modifies buf
    ensures Wrote(old(buf[..]), buf[..], o0, RRAC + LE32(0) + Header2Middle(h), rv == Success, o)
    ensures rv == Success || rv == OutOfRange
  {
    ghost var s0 := buf[..];
    WroteNothing(s0, o0);
    hide Wrote, LE32, Header2Middle;
    ghost var a2 := RRAC + LE32(0);
    assert [] + RRAC == RRAC;
    rv, o := Put(buf, Success, o0, RRAC, s0, o0, []);
    rv, o := Put(buf, rv, o, LE32(0), s0, o0, RRAC);
    ghost var s1 := buf[..];
    if rv == Success {
      WroteEnd(s0, s1, o0, a2, o);
      var o1 := o;
      rv, o := PutMiddle2(buf, o1, h);
      WroteThen(s0, s1, buf[..], o0, a2, o1, Header2Middle(h), rv == Success, o);
    } else {
      WroteFailed(s0, s1, o0, a2, o, Header2Middle(h));
    }
  }

  /** The entry count and the fields behind it. */
  method PutEnd2(buf: array<byte>, rv0: Status, o0: nat, h: MessageHeader, count: u16, ghost s0: seq<byte>,
          ghost start: nat, ghost acc: seq<byte>)
    returns (rv: Status, o: nat)
    requires Wrote(s0, buf[..], start, acc, rv0 == Success, o0)
    modifies buf
    ensures Wrote(s0, buf[..], start, acc + LE16(count) + Header2Tail(h), rv == Success, o)
    ensures rv == rv0 || (rv0 == Success && rv == OutOfRange)
  {
    hide Wrote, LE16;
    ghost var a4 := acc + LE16(count);
    ConcatAssoc(a4, LE16(h.messageId), LE16(h.messageResId));
    rv, o := Put(buf, rv0, o0, LE16(count), s0, start, acc);
    rv, o := Put(buf, rv, o, LE16(h.messageId), s0, start, a4);
    rv, o := Put(buf, rv, o, LE16(h.messageResId), s0, start, a4 + LE16(h.messageId));
  }

  /** write_header2_ex of the message writer. The sizes are checked first, the entry count
      only when its turn comes. */
  method PutMessageHeader2(buf: array<byte>, o0: nat, h: MessageHeader) returns (rv: Status, o: nat, countOffset: nat)
    requires o0 <= buf.Length
    modifies buf
    ensures KeepsBefore(old(buf[..]), buf[..], o0)
    ensures rv == Success || rv == OutOfRange
    ensures Header2InRange(h) ==> Wrote(old(buf[..]), buf[..], o0, MessageHeader2Bytes(h, 0, h.entryCount),
        rv == Success, o)
    ensures !Header2InRange(h) ==> rv == OutOfRange
    ensures rv == Success ==> countOffset == o - 6
  {
    KeepsRefl(buf[..], o0);
    hide Wrote, KeepsBefore;
    o, countOffset := o0, 0;
    if |h.senderName| > U16_MAX || |h.receiverName| > U16_MAX || |h.metadata| > U16_MAX || HeaderSize2(h) > U16_MAX {
      return OutOfRange, o, countOffset;
    }
    ghost var s0 := buf[..];
    hide LE16, LE32, Header2Middle, HeaderSize2, Header2Tail, MessageHeader2Bytes;
    ghost var a3 := RRAC + LE32(0) + Header2Middle(h);
    rv, o := PutFront2(buf, o0, h);
    countOffset := o;
    if h.entryCount > U16_MAX {
      WrotePrefix(s0, buf[..], o0, a3, rv == Success, o);
      return OutOfRange, o, countOffset;
    }
    if rv == Success {
      WroteEnd(s0, buf[..], o0, a3, o);
    }
    rv, o := PutEnd2(buf, rv, o, h, h.entryCount, s0, o0, a3);
    Header2Whole(h, s0, buf[..], o0, rv == Success, o);
  }

  lemma Header2Whole(h: MessageHeader, s0: seq<byte>, s1: seq<byte>, o0: nat, ok: bool, o: nat)
    requires h.entryCount <= U16_MAX
    requires Wrote(s0, s1, o0, RRAC + LE32(0) + Header2Middle(h) + LE16(h.entryCount) + Header2Tail(h), ok, o)
    ensures Wrote(s0, s1, o0, MessageHeader2Bytes(h, 0, h.entryCount), ok, o)
    ensures KeepsBefore(s0, s1, o0)
    ensures ok ==> o == o0 + |RRAC + LE32(0) + Header2Middle(h)| + 6
  {
    hide LE16, LE32, Header2Middle;
  }

  method PutRouting(buf: array<byte>, rv0: Status, o0: nat, h: MessageHeader, mask: byte, ghost s0: seq<byte>,
          ghost start: nat, ghost acc: seq<byte>)
    returns (rv: Status, o: nat)
    requires Wrote(s0, buf[..], start, acc, rv0 == Success, o0)
    modifies buf
    ensures Wrote(s0, buf[..], start, acc + RoutingBytes(h, mask), rv == Success, o)
    ensures rv == rv0 || (rv0 == Success && rv == OutOfRange)
  {
    hide Wrote, StrX, HasRouting;
    rv, o := rv0, o0;
    if HasRouting(h, mask) {
      ghost var b2 := h.senderNode + h.receiverNode;
      ghost var b3 := b2 + StrX(h.senderName);
      ConcatAssoc(acc, h.senderNode, h.receiverNode);
      ConcatAssoc(acc, b2, StrX(h.senderName));
      ConcatAssoc(acc, b3, StrX(h.receiverName));
      rv, o := Put(buf, rv, o, h.senderNode, s0, start, acc);
      rv, o := Put(buf, rv, o, h.receiverNode, s0, start, acc + h.senderNode);
      rv, o := PutStrX(buf, rv, o, h.senderName, s0, start, acc + b2);
      rv, o := PutStrX(buf, rv, o, h.receiverName, s0, start, acc + b3);
    } else {
      assert acc + [] == acc;
    }
  }

  method PutEndpoint(buf: array<byte>, rv0: Status, o0: nat, h: MessageHeader, mask: byte, ghost s0: seq<byte>,
          ghost start: nat, ghost acc: seq<byte>)
    returns (rv: Status, o: nat)
    requires Wrote(s0, buf[..], start, acc, rv0 == Success, o0)
    modifies buf
    ensures Wrote(s0, buf[..], start, acc + EndpointBytes(h, mask), rv == Success, o)
    ensures rv == rv0 || (rv0 == Success && rv == OutOfRange)
  {
    hide Wrote, UintX, HasEndpoint;
    rv, o := rv0, o0;
    if HasEndpoint(h, mask) {
      ConcatAssoc(acc, UintX(h.senderEndpoint), UintX(h.receiverEndpoint));
      rv, o := PutUintX(buf, rv, o, h.senderEndpoint, s0, start, acc);
      rv, o := PutUintX(buf, rv, o, h.receiverEndpoint, s0, start, acc + UintX(h.senderEndpoint));
    } else {
      assert acc + [] == acc;
    }
  }

  method PutMeta(buf: array<byte>, rv0: Status, o0: nat, h: MessageHeader, mask: byte, ghost s0: seq<byte>,
          ghost start: nat, ghost acc: seq<byte>)
    returns (rv: Status, o: nat)
    requires Wrote(s0, buf[..], start, acc, rv0 == Success, o0)
    modifies buf
    ensures Wrote(s0, buf[..], start, acc + MetaBytes(h, mask), rv == Success, o)
    ensures rv == rv0 || (rv0 == Success && rv == OutOfRange)
  {
    hide Wrote, StrX, LE16, HasMeta;
    rv, o := rv0, o0;
    if HasMeta(h, mask) {
      ghost var b2 := StrX(h.metadata) + LE16(h.messageId);
      ConcatAssoc(acc, StrX(h.metadata), LE16(h.messageId));
      ConcatAssoc(acc, b2, LE16(h.messageResId));
      rv, o := PutStrX(buf, rv, o, h.metadata, s0, start, acc);
      rv, o := Put(buf, rv, o, LE16(h.messageId), s0, start, acc + StrX(h.metadata));
      rv, o := Put(buf, rv, o, LE16(h.messageResId), s0, start, acc + b2);
    } else {
      assert acc + [] == acc;
    }
  }

  /** The version 4 fields between the message size and the entry count. */
  method PutMiddle4(buf: array<byte>, o0: nat, h: MessageHeader, mask: byte, headerSize: u32)
          returns (rv: Status, o: nat)
    requires o0 <= buf.Length
    requires HeaderSize4(h, mask) == Ok(headerSize)
    modifies buf
    ensures Wrote(old(buf[..]), buf[..], o0, Header4Middle(h, mask), rv == Success, o)
    ensures rv == Success || rv == OutOfRange
  {
    hide Wrote, LE16, UintX, HasPriority, RoutingBytes, EndpointBytes, MetaBytes, MessageFlags, HeaderSize4;
    ghost var s0 := buf[..];
    WroteNothing(s0, o0);
    ghost var a1 := LE16(4);
    ghost var a2 := a1 + UintX(headerSize);
    ghost var a3 := a2 + [MessageFlags(h, mask)];
    ghost var a4 := a3 + RoutingBytes(h, mask);
    ghost var a5 := a4 + EndpointBytes(h, mask);
    ghost var a6 := a5 + PriorityBytes(h, mask);
    assert [] + a1 == a1;
    rv, o := Put(buf, Success, o0, LE16(4), s0, o0, []);
    rv, o := PutUintX(buf, rv, o, headerSize, s0, o0, a1);
    rv, o := Put(buf, rv, o, [MessageFlags(h, mask)], s0, o0, a2);
    rv, o := PutRouting(buf, rv, o, h, mask, s0, o0, a3);
    rv, o := PutEndpoint(buf, rv, o, h, mask, s0, o0, a4);
    rv, o := PutWhenU16(buf, rv, o, HasPriority(h, mask), h.priority, s0, o0, a5);
    rv, o := PutMeta(buf, rv, o, h, mask, s0, o0, a6);
  }

  method PutFront4(buf: array<byte>, o0: nat, h: MessageHeader, mask: byte, headerSize: u32)
          returns (rv: Status, o: nat)
    requires o0 <= buf.Length
    requires HeaderSize4(h, mask) == Ok(headerSize)
    modifies buf
    ensures Wrote(old(buf[..]), buf[..], o0, RRAC + LE32(0) + Header4Middle(h, mask), rv == Success, o)
    ensures rv == Success || rv == OutOfRange
  {
    ghost var s0 := buf[..];
    WroteNothing(s0, o0);
    hide Wrote, LE32, Header4Middle, HeaderSize4;
    ghost var a2 := RRAC + LE32(0);
    assert [] + RRAC == RRAC;
    rv, o := Put(buf, Success, o0, RRAC, s0, o0, []);
    rv, o := Put(buf, rv, o, LE32(0), s0, o0, RRAC);
    ghost var s1 := buf[..];
    if rv == Success {
      WroteEnd(s0, s1, o0, a2, o);
      var o1 := o;
      rv, o := PutMiddle4(buf, o1, h, mask, headerSize);
      WroteThen(s0, s1, buf[..], o0, a2, o1, Header4Middle(h, mask), rv == Success, o);
    } else {
      WroteFailed(s0, s1, o0, a2, o, Header4Middle(h, mask));
    }
  }

  /** The entry count, if the message has a place for it; patched later behind its tag byte. */
  method PutMultiple(buf: array<byte>, rv0: Status, o0: nat, h: MessageHeader, mask: byte, ghost s0: seq<byte>,
          ghost start: nat, ghost acc: seq<byte>)
    returns (rv: Status, o: nat, countOffset: Option<nat>)
    requires Wrote(s0, buf[..], start, acc, rv0 == Success, o0)
    modifies buf
    ensures Wrote(s0, buf[..], start, acc + MultipleBytes(h, mask, h.entryCount), rv == Success, o)
    ensures rv == rv0 || (rv0 == Success && rv == OutOfRange)
    ensures countOffset == if HasMultiple(h, mask) then Some(o0 + 1) else None
  {
    hide Wrote, HasMultiple, PaddedUintX;
    rv, o, countOffset := rv0, o0, None;
    if HasMultiple(h, mask) {
      U32Exact(h.entryCount);
      hide U32OfSize;
      countOffset := Some(o + 1);
      rv, o := PutPadded(buf, rv, o, h.entryCount, s0, start, acc);
    } else {
      assert acc + [] == acc;
    }
  }

  lemma MultipleEnd(s0: seq<byte>, s1: seq<byte>, s2: seq<byte>, o0: nat, a: seq<byte>, o1: nat, h: MessageHeader,
          mask: byte, o: nat)
    requires Wrote(s0, s1, o0, a, true, o1) && Wrote(s0, s2, o0, a + MultipleBytes(h, mask, h.entryCount), true, o)
    ensures HasMultiple(h, mask) ==> o1 + 1 == o - 4
  {
  }

  /** write_header4_ex of the message writer. The header size is predicted, and after the
      last field it is compared with the bytes written; that comparison never fails. */
  method PutMessageHeader4(buf: array<byte>, o0: nat, h: MessageHeader, mask: byte)
    returns (rv: Status, o: nat, countOffset: Option<nat>)
    requires o0 <= buf.Length
    modifies buf
    ensures KeepsBefore(old(buf[..]), buf[..], o0)
    ensures rv == Success || rv == OutOfRange
    ensures HeaderSize4(h, mask).Ok? ==> Wrote(old(buf[..]), buf[..], o0, MessageHeader4Bytes(h, mask, 0, h.entryCount),
        rv == Success, o)
    ensures HeaderSize4(h, mask).Err? ==> rv == OutOfRange
    ensures rv == Success ==> countOffset == if HasMultiple(h, mask) then Some(o - 4) else None
  {
    KeepsRefl(buf[..], o0);
    hide Wrote, KeepsBefore;
    o, countOffset := o0, None;
    var predicted := HeaderSize4(h, mask);
    if predicted.Err? {
      return predicted.status, o, countOffset;
    }
    var headerSize := predicted.value;
    ghost var s0 := buf[..];
    Header4SizeExact(h, mask, 0, h.entryCount);
    hide LE32, Header4Middle, HasMultiple, HeaderSize4, U32OfSize, MultipleBytes;
    ghost var a3 := RRAC + LE32(0) + Header4Middle(h, mask);
    rv, o := PutFront4(buf, o0, h, mask, headerSize);
    ghost var s1, o1 := buf[..], o;
    rv, o, countOffset := PutMultiple(buf, rv, o, h, mask, s0, o0, a3);
    ghost var full := a3 + MultipleBytes(h, mask, h.entryCount);
    WrotePrefix(s0, buf[..], o0, full, rv == Success, o);
    if rv == Success {
      WroteEnd(s0, buf[..], o0, full, o);
      MultipleEnd(s0, s1, buf[..], o0, a3, o1, h, mask, o);
      if o - o0 != headerSize {
        return InternalError, o, countOffset;
      }
    }
  }
}
