/** Fixed-width integers, status codes and the little-endian byte layout that
    every other module shares. */
module Base {

  newtype byte = x: int | 0 <= x < 0x100
  type u16 = x: int | 0 <= x < 0x1_0000
  type u32 = x: int | 0 <= x < 0x1_0000_0000
  type i32 = x: int | -0x8000_0000 <= x < 0x8000_0000

  const U16_MAX: int := 0xFFFF
  const U32_MAX: int := 0xFFFF_FFFF
  const SIZE_MODULUS: int := 0x1_0000_0000_0000_0000

  /** Strings and raw blocks. Total sizes stay below 2^32, so a length always fits a u32. */
  type text = s: seq<byte> | |s| <= 0xFFFF_FFFF

  /** The status codes of err.h that the modelled functions return. */
  datatype Status =
    | Success
    | InvalidArgument
    | InvalidOperation
    | OutOfRange
    | NoMore
    | Protocol
    | ElementNotFound
    | TypeMismatch
    | ConnectionError
    | Retry
    | Consumed
    | InternalError
    | UnhandledEvent

  datatype Option<+T> = None | Some(value: T)

  type Failure = s: Status | s != Success witness OutOfRange

  datatype Result<+T> = Ok(value: T) | Err(status: Failure) {
    predicate IsFailure() {
      Err?
    }

    function PropagateFailure<U>(): Result<U>
      requires Err?
    {
      Err(status)
    }

    function Extract(): T
      requires Ok?
    {
      value
    }
  }

  /** Subtraction on the 64-bit size type: it wraps. */
  function SizeSub(a: nat, b: nat): nat {
    (a - b) % SIZE_MODULUS
  }

  lemma SizeSubExact(a: nat, b: nat)
    requires b <= a < b + SIZE_MODULUS
    ensures SizeSub(a, b) == a - b
  {
  }

  function U16OfSize(n: nat): u16 {
    n % 0x1_0000
  }

  function U32OfSize(n: nat): u32 {
    n % 0x1_0000_0000
  }

  lemma U32Exact(v: u32)
    ensures U32OfSize(v) == v
  {
  }

  function LE16(v: u16): (r: seq<byte>)
    ensures |r| == 2
  {
    [(v % 0x100) as byte, (v / 0x100) as byte]
  }

  function LE32(v: u32): (r: seq<byte>)
    ensures |r| == 4
  {
    [(v % 0x100) as byte, (v / 0x100 % 0x100) as byte, (v / 0x1_0000 % 0x100) as byte, (v / 0x100_0000) as byte]
  }

  function GetLE16(s: seq<byte>): u16
    requires |s| == 2
  {
    s[0] as int + 0x100 * s[1] as int
  }

  function GetLE32(s: seq<byte>): u32
    requires |s| == 4
  {
    s[0] as int + 0x100 * s[1] as int + 0x1_0000 * s[2] as int + 0x100_0000 * s[3] as int
  }

  lemma LE16RoundTrip(v: u16)
    ensures GetLE16(LE16(v)) == v
  {
  }

  lemma LE32RoundTrip(v: u32)
    ensures GetLE32(LE32(v)) == v
  {
    var a, b := v / 0x100, v / 0x1_0000;
    assert b == a / 0x100 && v / 0x100_0000 == b / 0x100;
  }

  /** Bytes p stand in s at offset o. */
  ghost predicate At(s: seq<byte>, o: nat, p: seq<byte>) {
    o + |p| <= |s| && s[o..o + |p|] == p
  }

  lemma AtFits(s: seq<byte>, o: nat, p: seq<byte>)
    requires At(s, o, p)
    ensures o + |p| <= |s|
  {
  }

  lemma AtSplit(s: seq<byte>, o: nat, a: seq<byte>, b: seq<byte>)
    requires At(s, o, a + b)
    ensures At(s, o, a)
    ensures At(s, o + |a|, b)
  {
    var m := o + |a|;
    assert s[o..m] == s[o..m + |b|][..|a|] == (a + b)[..|a|] == a;
    assert s[m..m + |b|] == s[o..m + |b|][|a|..] == (a + b)[|a|..] == b;
  }

  lemma AtJoin(s: seq<byte>, o: nat, a: seq<byte>, b: seq<byte>)
    requires At(s, o, a)
    requires At(s, o + |a|, b)
    ensures At(s, o, a + b)
  {
    var m := o + |a|;
    assert s[o..m + |b|] == s[o..m] + s[m..m + |b|];
  }

  lemma SliceOfPrefix<T>(s: seq<T>, k: nat, i: nat, j: nat)
    requires i <= j <= k <= |s|
    ensures s[..k][i..j] == s[i..j]
  {
    var a, b := s[..k][i..j], s[i..j];
    forall n | 0 <= n < j - i ensures a[n] == b[n] {
      assert a[n] == s[..k][i + n] == s[i + n] == b[n];
    }
  }

  lemma ConcatAssoc<T>(a: seq<T>, b: seq<T>, c: seq<T>)
    ensures (a + b) + c == a + (b + c)
  {
  }

  lemma AtSplit3(s: seq<byte>, o: nat, a: seq<byte>, b: seq<byte>, c: seq<byte>)
    requires At(s, o, a + b + c)
    ensures At(s, o, a)
    ensures At(s, o + |a|, b)
    ensures At(s, o + |a| + |b|, c)
  {
    hide At;
    AtSplit(s, o, a + b, c);
    AtSplit(s, o, a, b);
  }

  /** Only the bytes before bound matter to At. */
  lemma AtPrefix(s: seq<byte>, t: seq<byte>, bound: nat, o: nat, p: seq<byte>)
    requires bound <= |s| && bound <= |t| && s[..bound] == t[..bound]
    requires o + |p| <= bound
    requires At(s, o, p)
    ensures At(t, o, p)
  {
    assert s[o..o + |p|] == s[..bound][o..o + |p|];
    assert t[o..o + |p|] == t[..bound][o..o + |p|];
  }

  /** s with the bytes from o on overwritten by p. */
  function Splice(s: seq<byte>, o: nat, p: seq<byte>): (r: seq<byte>)
    requires o + |p| <= |s|
    ensures |r| == |s|
  {
    s[..o] + p + s[o + |p|..]
  }

  lemma SpliceGrows(s: seq<byte>, o: nat, p: seq<byte>)
    requires o + |p| <= |s|
    ensures Splice(s, o, p)[..o + |p|] == s[..o] + p
    ensures Splice(s, o, p)[o..o + |p|] == p
    ensures forall k | 0 <= k <= o :: Splice(s, o, p)[..k] == s[..k]
  {
  }

  // ---- exclusive or on bytes ----

  function Power2(n: nat): nat {
    if n == 0 then 1 else 2 * Power2(n - 1)
  }

  /** Exclusive or of the lowest bit. */
  function XorLow(a: nat, b: nat): (r: nat)
    ensures r < 2
  {
    (a % 2 + b % 2) % 2
  }

  /** Exclusive or of the lowest bits, bit by bit. */
  function XorBits(a: nat, b: nat, bits: nat): (r: nat)
    ensures r < Power2(bits)
  {
    if bits == 0 then 0 else XorLow(a, b) + 2 * XorBits(a / 2, b / 2, bits - 1)
  }

  lemma XorLowTwice(a: nat, b: nat, rest: nat)
    ensures XorLow(XorLow(a, b) + 2 * rest, b) == a % 2
    ensures (XorLow(a, b) + 2 * rest) / 2 == rest
  {
  }

  lemma HalfBelow(a: nat, bits: nat)
    requires bits > 0 && a < Power2(bits)
    ensures a / 2 < Power2(bits - 1) && a % 2 + 2 * (a / 2) == a
  {
  }

  lemma XorBitsStep(a: nat, b: nat, bits: nat)
    requires bits > 0
    ensures XorBits(a, b, bits) == XorLow(a, b) + 2 * XorBits(a / 2, b / 2, bits - 1)
  {
  }

  lemma {:induction false} XorBitsTwice(a: nat, b: nat, bits: nat)
    requires a < Power2(bits)
    ensures XorBits(XorBits(a, b, bits), b, bits) == a
  {
    if bits == 0 {
      XorBitsNone(a, b);
    } else {
      hide *;
      var rest := XorBits(a / 2, b / 2, bits - 1);
      XorBitsStep(a, b, bits);
      XorLowTwice(a, b, rest);
      XorBitsStep(XorBits(a, b, bits), b, bits);
      HalfBelow(a, bits);
      XorBitsTwice(a / 2, b / 2, bits - 1);
    }
  }

  lemma XorBitsNone(a: nat, b: nat)
    requires a < Power2(0)
    ensures XorBits(XorBits(a, b, 0), b, 0) == a
  {
  }

  lemma XorLowKeeps(a: nat, b: nat, rest: nat)
    ensures XorLow(a, b) + 2 * rest == a <==> b % 2 == 0 && rest == a / 2
  {
    assert a == a % 2 + 2 * (a / 2);
  }

  lemma {:induction false} XorBitsKeeps(a: nat, b: nat, bits: nat)
    requires a < Power2(bits) && b < Power2(bits)
    ensures XorBits(a, b, bits) == a <==> b == 0
  {
    if bits > 0 {
      hide *;
      XorBitsStep(a, b, bits);
      XorLowKeeps(a, b, XorBits(a / 2, b / 2, bits - 1));
      HalfBelow(a, bits);
      HalfBelow(b, bits);
      XorBitsKeeps(a / 2, b / 2, bits - 1);
    }
  }

  lemma EightBits()
    ensures Power2(8) == 0x100
  {
  }

  function Xor(a: byte, b: byte): byte {
    EightBits();
    XorBits(a as nat, b as nat, 8) as byte
  }

  lemma XorTwice(a: byte, b: byte)
    ensures Xor(Xor(a, b), b) == a
  {
    EightBits();
    XorBitsTwice(a as nat, b as nat, 8);
  }

  lemma XorKeeps(a: byte, b: byte)
    ensures Xor(a, b) == a <==> b == 0
  {
    EightBits();
    XorBitsKeeps(a as nat, b as nat, 8);
  }
}
