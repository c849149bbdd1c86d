/** The scalar wire formats of message.c: fixed and variable-length integers,
    length-prefixed strings, and the functions that read them back. */
module Wire {
  import opened Base

  // ---- what the writer emits ----

  /** Shortest form: one byte up to 252, else a tag byte and two or four bytes. */
  function UintX(v: u32): (r: seq<byte>)
    ensures |r| == UintXSize(v)
  {
    if v <= 252 then [v as byte]
    else if v <= U16_MAX then [253] + LE16(v)
    else [254] + LE32(v)
  }

  function UintXSize(v: u32): nat {
    if v <= 252 then 1 else if v <= U16_MAX then 3 else 5
  }

  /** Always five bytes, so that the value can be patched in later. */
  function PaddedUintX(v: u32): (r: seq<byte>)
    ensures |r| == 5
  {
    [254] + LE32(v)
  }

  function IntX(v: i32): (r: seq<byte>)
    ensures |r| in {1, 3, 5}
  {
    if -0x80 <= v <= 124 then [(v % 0x100) as byte]
    else if -0x8000 <= v <= 0x7FFF then [125] + LE16(v % 0x1_0000)
    else [126] + LE32(v % 0x1_0000_0000)
  }

  /** Version 2 strings: the 16-bit length is a truncating cast. */
  function Str2(s: text): (r: seq<byte>)
    ensures |r| == 2 + |s|
  {
    LE16(U16OfSize(|s|)) + s
  }

  function StrX(s: text): (r: seq<byte>)
    ensures |r| == UintXSize(|s|) + |s|
  {
    UintX(|s|) + s
  }

  /** Size of a length field that counts itself: (total, bytes of the field). */
  function LenPlusUintX(n: u32): Result<(u32, nat)> {
    if n <= 251 then Ok((n + 1, 1))
    else if n <= U16_MAX - 3 then Ok((n + 3, 3))
    else if n <= U32_MAX - 5 then Ok((n + 5, 5))
    else Err(OutOfRange)
  }

  // ---- what the reader does ----

  function ReadU8(s: seq<byte>, o: nat): (r: Result<(byte, nat)>)
    ensures r.Ok? ==> o < r.value.1 <= |s|
  {
    if o + 1 <= |s| then Ok((s[o], o + 1)) else Err(OutOfRange)
  }

  function ReadU16(s: seq<byte>, o: nat): (r: Result<(u16, nat)>)
    ensures r.Ok? ==> o < r.value.1 <= |s|
  {
    if o + 2 <= |s| then Ok((GetLE16(s[o..o + 2]), o + 2)) else Err(OutOfRange)
  }

  function ReadU32(s: seq<byte>, o: nat): (r: Result<(u32, nat)>)
    ensures r.Ok? ==> o < r.value.1 <= |s|
  {
    if o + 4 <= |s| then Ok((GetLE32(s[o..o + 4]), o + 4)) else Err(OutOfRange)
  }

  function ReadBytes(s: seq<byte>, o: nat, n: nat): Result<(seq<byte>, nat)> {
    if o + n <= |s| then Ok((s[o..o + n], o + n)) else Err(OutOfRange)
  }

  function ReadUintX(s: seq<byte>, o: nat): (r: Result<(u32, nat)>)
    ensures r.Ok? ==> o < r.value.1 <= |s|
  {
    var (b, o1) :- ReadU8(s, o);
    if b <= 252 then Ok((b as u32, o1))
    else if b == 253 then
      var (v, o2) :- ReadU16(s, o1);
      Ok((v, o2))
    else if b == 254 then ReadU32(s, o1)
    else Err(Protocol)
  }

  /** Fixed fields fail exactly where they do not fit, and the first byte decides what follows a short one. */
  lemma ReadsFail(s: seq<byte>, o: nat)
    ensures ReadU8(s, o) == Err(OutOfRange) <==> o + 1 > |s|
    ensures ReadU16(s, o) == Err(OutOfRange) <==> o + 2 > |s|
    ensures ReadU32(s, o) == Err(OutOfRange) <==> o + 4 > |s|
    ensures ReadUintX(s, o) == Err(Protocol) <==> o < |s| && s[o] == 255
    ensures ReadIntX(s, o) == Err(Protocol) <==> o < |s| && s[o] == 127
    ensures ReadUintX(s, o) == Err(OutOfRange)
       <==> o >= |s| || (s[o] == 253 && o + 3 > |s|) || (s[o] == 254 && o + 5 > |s|)
    ensures ReadIntX(s, o) == Err(OutOfRange)
       <==> o >= |s| || (s[o] == 125 && o + 3 > |s|) || (s[o] == 126 && o + 5 > |s|)
  {
    hide GetLE16, GetLE32;
  }

  function Signed(v: nat, half: nat): int {
    if v < half then v else v - 2 * half
  }

  function ReadIntX(s: seq<byte>, o: nat): (r: Result<(i32, nat)>)
    ensures r.Ok? ==> o < r.value.1 <= |s|
  {
    var (u, o1) :- ReadU8(s, o);
    var b := Signed(u as nat, 0x80);
    if b <= 124 then Ok((b, o1))
    else if b == 125 then
      var (v, o2) :- ReadU16(s, o1);
      Ok((Signed(v, 0x8000), o2))
    else if b == 126 then
      var (v, o2) :- ReadU32(s, o1);
      Ok((Signed(v, 0x8000_0000), o2))
    else Err(Protocol)
  }

  /** Where a header string lies; the text itself is fetched afterwards. */
  datatype Span = Span(off: nat, len: nat)

  const NO_SPAN := Span(0, 0)

  function ReadStr2(s: seq<byte>, o: nat): (r: Result<(Span, nat)>)
    ensures r.Ok? ==> o < r.value.0.off && r.value.0.off + r.value.0.len == r.value.1
  {
    var (n, o1) :- ReadU16(s, o);
    Ok((Span(o1, n), o1 + n))
  }

  function ReadStrX(s: seq<byte>, o: nat): (r: Result<(Span, nat)>)
    ensures r.Ok? ==> o < r.value.0.off && r.value.0.off + r.value.0.len == r.value.1
  {
    var (n, o1) :- ReadUintX(s, o);
    Ok((Span(o1, n), o1 + n))
  }

  /** Copy a header string into caller storage of the given capacity; None is the
      null string, for which only the length is reported. */
  function FetchString(s: seq<byte>, span: Span, capacity: Option<nat>): Result<seq<byte>> {
    if span.len == 0 || capacity == None then Ok([])
    else if capacity.value < span.len then Err(InvalidArgument)
    else if span.off + span.len <= |s| then Ok(s[span.off..span.off + span.len])
    else Err(OutOfRange)
  }

  /** A string that is not all in the buffer is refused for range once there is room for it. */
  lemma FetchOutside(s: seq<byte>, span: Span, capacity: nat)
    requires 0 < span.len <= capacity
    ensures FetchString(s, span, Some(capacity)) == Err(OutOfRange) <==> span.off + span.len > |s|
  {
  }

  /** The span holds exactly this text. */
  ghost predicate Holds(s: seq<byte>, span: Span, t: text) {
    span.len == |t| && (|t| == 0 || At(s, span.off, t))
  }

  lemma FetchHeld(s: seq<byte>, span: Span, t: text, capacity: nat)
    requires Holds(s, span, t)
    ensures FetchString(s, span, Some(capacity)) == if |t| <= capacity then Ok(t) else Err(InvalidArgument)
    ensures FetchString(s, span, None) == Ok([])
  {
  }

  lemma HoldsOne(s: seq<byte>, span: Span, a: text, b: text)
    requires Holds(s, span, a) && Holds(s, span, b)
    ensures a == b
  {
  }

  // ---- reading back what was written ----

  lemma ReadU8At(s: seq<byte>, o: nat, v: byte)
    requires At(s, o, [v])
    ensures ReadU8(s, o) == Ok((v, o + 1))
  {
    assert s[o] == s[o..o + 1][0];
  }

  lemma ReadU16At(s: seq<byte>, o: nat, v: u16)
    requires At(s, o, LE16(v))
    ensures ReadU16(s, o) == Ok((v, o + 2))
  {
    LE16RoundTrip(v);
  }

  lemma ReadU32At(s: seq<byte>, o: nat, v: u32)
    requires At(s, o, LE32(v))
    ensures ReadU32(s, o) == Ok((v, o + 4))
  {
    LE32RoundTrip(v);
  }

  lemma ReadUintXAt(s: seq<byte>, o: nat, v: u32)
    requires At(s, o, UintX(v))
    ensures ReadUintX(s, o) == Ok((v, o + UintXSize(v)))
  {
    if v <= 252 {
      ReadU8At(s, o, v as byte);
    } else if v <= U16_MAX {
      AtSplit(s, o, [253], LE16(v));
      ReadU8At(s, o, 253);
      ReadU16At(s, o + 1, v);
    } else {
      ReadPaddedAt(s, o, v);
    }
  }

  lemma ReadPaddedAt(s: seq<byte>, o: nat, v: u32)
    requires At(s, o, PaddedUintX(v))
    ensures ReadUintX(s, o) == Ok((v, o + 5))
  {
    AtSplit(s, o, [254], LE32(v));
    ReadU8At(s, o, 254);
    ReadU32At(s, o + 1, v);
  }

  /** The two's complement residue of v reads back as v. */
  lemma SignedResidue(v: int)
    ensures -0x80 <= v < 0x80 ==> Signed(v % 0x100, 0x80) == v
    ensures -0x8000 <= v < 0x8000 ==> Signed(v % 0x1_0000, 0x8000) == v
    ensures -0x8000_0000 <= v < 0x8000_0000 ==> Signed(v % 0x1_0000_0000, 0x8000_0000) == v
  {
  }

  lemma ReadIntXAt(s: seq<byte>, o: nat, v: i32)
    requires At(s, o, IntX(v))
    ensures ReadIntX(s, o) == Ok((v, o + |IntX(v)|))
  {
    if -0x80 <= v <= 124 {
      ReadU8At(s, o, (v % 0x100) as byte);
      SignedResidue(v);
    } else if -0x8000 <= v <= 0x7FFF {
      var u: u16 := v % 0x1_0000;
      AtSplit(s, o, [125], LE16(u));
      ReadU8At(s, o, 125);
      ReadU16At(s, o + 1, u);
      SignedResidue(v);
    } else {
      var u: u32 := v % 0x1_0000_0000;
      AtSplit(s, o, [126], LE32(u));
      ReadU8At(s, o, 126);
      ReadU32At(s, o + 1, u);
      SignedResidue(v);
    }
  }

  lemma ReadStr2At(s: seq<byte>, o: nat, t: text)
    requires At(s, o, Str2(t))
    ensures ReadStr2(s, o) == Ok((Span(o + 2, |t| % 0x1_0000), o + 2 + |t| % 0x1_0000))
    ensures |t| <= U16_MAX <==> Holds(s, Span(o + 2, |t| % 0x1_0000), t)
  {
    AtSplit(s, o, LE16(U16OfSize(|t|)), t);
    ReadU16At(s, o, U16OfSize(|t|));
  }

  lemma ReadStrXAt(s: seq<byte>, o: nat, t: text)
    requires At(s, o, StrX(t))
    ensures ReadStrX(s, o) == Ok((Span(o + UintXSize(|t|), |t|), o + |StrX(t)|))
    ensures Holds(s, Span(o + UintXSize(|t|), |t|), t)
  {
    hide UintX, UintXSize, ReadUintX;
    AtSplit(s, o, UintX(|t|), t);
    ReadUintXAt(s, o, |t|);
  }

  /** Every integer form decodes to the value written and advances by the bytes written. */
  lemma IntegerRoundTrips(pre: seq<byte>, post: seq<byte>, u: u32, i: i32)
    ensures ReadUintX(pre + UintX(u) + post, |pre|) == Ok((u, |pre| + |UintX(u)|))
    ensures ReadUintX(pre + PaddedUintX(u) + post, |pre|) == Ok((u, |pre| + |PaddedUintX(u)|))
    ensures ReadIntX(pre + IntX(i) + post, |pre|) == Ok((i, |pre| + |IntX(i)|))
  {
    assert At(pre + UintX(u) + post, |pre|, UintX(u));
    ReadUintXAt(pre + UintX(u) + post, |pre|, u);
    assert At(pre + PaddedUintX(u) + post, |pre|, PaddedUintX(u));
    ReadPaddedAt(pre + PaddedUintX(u) + post, |pre|, u);
    assert At(pre + IntX(i) + post, |pre|, IntX(i));
    ReadIntXAt(pre + IntX(i) + post, |pre|, i);
  }

  /** A size field of k bytes holds a total that includes itself. */
  ghost predicate CountsItself(n: nat, k: nat) {
    n + k <= U32_MAX && UintXSize(n + k) == k
  }

  /** The self-counting length: the total's own encoding has exactly the size that was
      counted, no smaller field would do, and it fails exactly past the last total that fits. */
  lemma SelfCounting(n: u32)
    ensures LenPlusUintX(n).Ok? <==> exists k: nat :: CountsItself(n, k)
    ensures LenPlusUintX(n).Ok? ==>
              var (total, size) := LenPlusUintX(n).value;
              total == n + size && CountsItself(n, size) && forall k: nat | CountsItself(n, k) :: size <= k
  {
    if n <= U32_MAX - 5 {
      assert CountsItself(n, LenPlusUintX(n).value.1);
    }
  }
}
