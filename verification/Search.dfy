/** Search by name (find_element and find_nested_element): a walk over the cursors that
    re-parses every header and compares names piece by piece. */
module Search {
  import opened Base
  import opened Wire
  import opened Headers
  import opened Tree
  import opened Cursor
  import opened Windows
  import opened RoundTrip

  /** The rest of the name from k on, compared in pieces of sixteen bytes. */
  function SameFrom(s: seq<byte>, at: nat, name: text, k: nat): Result<bool>
    requires k <= |name|
    decreases |name| - k
  {
    var piece := if |name| - k <= 16 then |name| - k else 16;
    if piece == 0 then Ok(true)
    else if at + k + piece > |s| then Err(OutOfRange)
    else if s[at + k..at + k + piece] != name[k..k + piece] then Ok(false)
    else if k + piece == |name| then Ok(true)
    else SameFrom(s, at, name, k + piece)
  }

  /** The pieces decide the whole name. */
  lemma {:induction false} PiecesDecide(s: seq<byte>, at: nat, name: text, k: nat)
    requires k <= |name| && (|name| == 0 || at + |name| <= |s|)
    ensures SameFrom(s, at, name, k) == Ok(|name| == 0 || s[at + k..at + |name|] == name[k..])
    decreases |name| - k
  {
    if |name| - k > 16 {
      var m := k + 16;
      PiecesDecide(s, at, name, m);
      assert s[at + k..at + |name|] == s[at + k..at + m] + s[at + m..at + |name|];
      assert name[k..] == name[k..m] + name[m..];
    } else if k < |name| {
      assert name[k..|name|] == name[k..];
    }
  }

  /** A name that is not all in the buffer is refused for range, unless one of the pieces of sixteen
      bytes that are in it differs. */
  lemma {:induction false} NameOutside(s: seq<byte>, at: nat, name: text, k: nat)
    requires at + k <= |s| < at + |name| && k % 16 == 0
    ensures var w := WholePieces(|s| - at);
            && k <= w <= |name| && at + w <= |s|
            && SameFrom(s, at, name, k) == if s[at + k..at + w] == name[k..w] then Err(OutOfRange) else Ok(false)
    decreases |name| - k
  {
    var w := WholePieces(|s| - at);
    PiecesBetween(|s| - at, k);
    if |name| - k > 16 && at + k + 16 <= |s| {
      var m := k + 16;
      SamePiece(s, at, name, k);
      NameOutside(s, at, name, m);
      hide WholePieces, SameFrom;
      var x, y := s[at + k..at + w], name[k..w];
      assert x[..16] == s[at + k..at + m] && x[16..] == s[at + m..at + w];
      assert y[..16] == name[k..m] && y[16..] == name[m..w];
      HalvesEqual(x, y, 16);
    } else {
      assert w == k;
      assert s[at + k..at + w] == [] == name[k..w];
    }
  }

  lemma SamePiece(s: seq<byte>, at: nat, name: text, k: nat)
    requires |name| - k > 16 && at + k + 16 <= |s|
    ensures SameFrom(s, at, name, k)
         == if s[at + k..at + k + 16] != name[k..k + 16] then Ok(false) else SameFrom(s, at, name, k + 16)
  {
  }

  lemma HalvesEqual(x: seq<byte>, y: seq<byte>, n: nat)
    requires n <= |x| == |y|
    ensures x == y <==> x[..n] == y[..n] && x[n..] == y[n..]
  {
    assert x == x[..n] + x[n..] && y == y[..n] + y[n..];
  }

  /** The bytes in pieces of sixteen that are all there. */
  function WholePieces(n: nat): nat {
    n / 16 * 16
  }

  lemma PiecesBetween(n: nat, k: nat)
    requires k <= n && k % 16 == 0
    ensures k <= WholePieces(n) <= n < WholePieces(n) + 16
    ensures n < k + 16 ==> WholePieces(n) == k
  {
    assert k == k / 16 * 16;
  }

  function NotFoundAtEnd(e: Failure): Failure {
    if e == NoMore then ElementNotFound else e
  }

  /** Status of the search from cursor c on, and the cursor it ends at. */
  function FindFrom(s: seq<byte>, c: ElementCursor, name: text): (Status, ElementCursor)
    decreases if c.current < c.total then c.total - c.current else 0
  {
    var header := ParseElement(c.ver, s, c.off);
    if header.Err? then (header.status, c)
    else
      var span := header.value.name;
      var same := if span.len == |name| then SameFrom(s, span.off, name, 0) else Ok(false);
      if same.Err? then (same.status, c)
      else if same.value then (Success, c)
      else
        var next := ElementNext(s, c);
        NextProgress(s, c);
        if next.Err? then (NotFoundAtEnd(next.status), c) else FindFrom(s, next.value, name)
  }

  lemma NextProgress(s: seq<byte>, c: ElementCursor)
    ensures ElementNext(s, c).Ok? ==> c.current + 1 < c.total && ElementNext(s, c).value.total == c.total
    ensures ElementNext(s, c).Ok? ==> ElementNext(s, c).value.current == c.current + 1
  {
    hide ReadCount;
  }

  /** The element under the cursor has this name. */
  ghost predicate NamedAt(s: seq<byte>, c: ElementCursor, name: text) {
    ParseElement(c.ver, s, c.off).Ok? && Holds(s, ParseElement(c.ver, s, c.off).value.name, name)
  }

  /** The element under the cursor has a header, and its name lies in the buffer. */
  ghost predicate ReadableAt(s: seq<byte>, c: ElementCursor) {
    var header := ParseElement(c.ver, s, c.off);
    header.Ok? && (header.value.name.len == 0 || header.value.name.off + header.value.name.len <= |s|)
  }

  lemma SameIsNamed(s: seq<byte>, c: ElementCursor, name: text)
    requires ReadableAt(s, c)
    ensures var span := ParseElement(c.ver, s, c.off).value.name;
            && (span.len == |name| ==> SameFrom(s, span.off, name, 0) == Ok(NamedAt(s, c, name)))
            && (span.len != |name| ==> !NamedAt(s, c, name))
  {
    hide ParseElement, SameFrom;
    var span := ParseElement(c.ver, s, c.off).value.name;
    if span.len == |name| {
      PiecesDecide(s, span.off, name, 0);
    }
  }

  /** The search stops where a header or a name cannot be read, with that error. */
  lemma FindStops(s: seq<byte>, c: ElementCursor, name: text)
    ensures var header := ParseElement(c.ver, s, c.off);
            && (header.Err? ==> FindFrom(s, c, name) == (header.status, c))
            && (header.Ok? && header.value.name.len == |name| && SameFrom(s, header.value.name.off, name, 0).Err? ==>
                  FindFrom(s, c, name) == (SameFrom(s, header.value.name.off, name, 0).status, c))
  {
    hide ParseElement, SameFrom, ElementNext;
  }

  /** A hit is the first element with the name: it has it, and no element before it does,
      wherever their names can be read. No hit means the elements ran out. */
  lemma {:induction false} FindsFirst(s: seq<byte>, c: ElementCursor, name: text) returns (k: nat)
    requires forall i: nat | ElementAt(s, c, i).Ok? :: ReadableAt(s, ElementAt(s, c, i).value)
    ensures ElementAt(s, c, k).Ok? && FindFrom(s, c, name).1 == ElementAt(s, c, k).value
    ensures forall i: nat | i < k :: ElementAt(s, c, i).Ok? && !NamedAt(s, ElementAt(s, c, i).value, name)
    ensures FindFrom(s, c, name).0 == Success <==> NamedAt(s, ElementAt(s, c, k).value, name)
    ensures FindFrom(s, c, name).0 != Success ==>
              && ElementAt(s, c, k + 1).Err?
              && FindFrom(s, c, name).0 == if ElementAt(s, c, k + 1).status == NoMore then ElementNotFound
                                           else ElementAt(s, c, k + 1).status
    decreases if c.current < c.total then c.total - c.current else 0
  {
    hide ParseElement, SameFrom, ElementNext, ReadableAt, NamedAt;
    assert ElementAt(s, c, 0) == Ok(c);
    SameIsNamed(s, c, name);
    HeaderReadable(s, c);
    NextProgress(s, c);
    if NamedAt(s, c, name) || ElementNext(s, c).Err? {
      k := 0;
      assert ElementAt(s, c, 1) == ElementNext(s, c);
    } else {
      var d := ElementNext(s, c).value;
      forall i: nat ensures ElementAt(s, d, i) == ElementAt(s, c, i + 1) {
        AtShift(s, c, i);
      }
      var j := FindsFirst(s, d, name);
      k := j + 1;
      forall i: nat | i < k ensures ElementAt(s, c, i).Ok? && !NamedAt(s, ElementAt(s, c, i).value, name) {
        if i > 0 {
          assert ElementAt(s, d, i - 1) == ElementAt(s, c, i);
        }
      }
    }
  }

  lemma HeaderReadable(s: seq<byte>, c: ElementCursor)
    requires ReadableAt(s, c)
    ensures ParseElement(c.ver, s, c.off).Ok?
  {
  }

  lemma {:induction false} AtShift(s: seq<byte>, c: ElementCursor, i: nat)
    requires ElementNext(s, c).Ok?
    ensures ElementAt(s, ElementNext(s, c).value, i) == ElementAt(s, c, i + 1)
  {
    hide ElementNext;
    if i > 0 {
      AtShift(s, c, i - 1);
    }
  }

  // ---- on encoded elements ----

  function NameOf(e: Element): text {
    match e
    case Raw(name, _, _, _) => name
    case Nested(h, _) => h.name
  }

  /** On the encoding of a tree the search meets the first child with the name, standing on
      it; it reports not-found exactly when no child has the name. */
  lemma {:induction false} FindsChild(s: seq<byte>, c: ElementCursor, es: seq<Element>, name: text) returns (k: nat)
    requires ReadsElements(s, c, es)
    ensures k <= |es| && forall i | 0 <= i < k :: NameOf(es[i]) != name
    ensures k < |es| ==> NameOf(es[k]) == name && FindFrom(s, c, name).0 == Success
    ensures k < |es| ==> ReadsElement(s, FindFrom(s, c, name).1, es[k])
    ensures k == |es| ==> FindFrom(s, c, name).0 == ElementNotFound
    decreases es
  {
    hide ParseElement, SameFrom, ElementNext, ReadsElement;
    HeadName(s, c, es[0]);
    ReadsNamed(s, c, es[0], name);
    NextProgress(s, c);
    if NameOf(es[0]) == name {
      k := 0;
    } else if |es| == 1 {
      k := 1;
    } else {
      var j := FindsChild(s, ElementNext(s, c).value, es[1..], name);
      k := j + 1;
    }
  }

  lemma HeadName(s: seq<byte>, c: ElementCursor, e: Element)
    requires ReadsElement(s, c, e)
    ensures ParseElement(c.ver, s, c.off).Ok?
    ensures Holds(s, ParseElement(c.ver, s, c.off).value.name, NameOf(e))
  {
    hide ParseElement, ReadData, BeginNested, ReadsElements, Holds;
  }

  lemma ReadsNamed(s: seq<byte>, c: ElementCursor, e: Element, name: text)
    requires ReadsElement(s, c, e)
    ensures ParseElement(c.ver, s, c.off).Ok?
    ensures var span := ParseElement(c.ver, s, c.off).value.name;
            && (span.len == |name| ==> SameFrom(s, span.off, name, 0) == Ok(NameOf(e) == name))
            && (span.len != |name| ==> NameOf(e) != name)
  {
    hide ParseElement, SameFrom, ReadsElement;
    HeadName(s, c, e);
    SameIsNamed(s, c, name);
    if NamedAt(s, c, name) {
      HoldsOne(s, ParseElement(c.ver, s, c.off).value.name, NameOf(e), name);
    }
  }
}
