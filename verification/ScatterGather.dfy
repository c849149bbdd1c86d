/** Copying between lists of segments (array.c): two index loops whose boundaries need not
    line up, against one flat copy. */
module ScatterGather {
  import opened Base

  /** A block of len items that starts somewhere in an array; the item size comes with each call. */
  datatype Segment = Segment(data: array<byte>, start: nat, len: nat)

  /** Bytes taken by n items. */
  function Scale(n: nat, size: nat): nat {
    n * size
  }

  // ---- joined parts, as values ----

  function Joined(p: seq<seq<byte>>): seq<byte> {
    if p == [] then [] else p[0] + Joined(p[1..])
  }

  /** Where part i starts. */
  function Start(p: seq<seq<byte>>, i: nat): nat
    requires i <= |p|
  {
    |Joined(p[..i])|
  }

  lemma {:induction false} JoinedConcat(p: seq<seq<byte>>, q: seq<seq<byte>>)
    ensures Joined(p + q) == Joined(p) + Joined(q)
  {
    if p == [] {
      assert p + q == q;
    } else {
      assert (p + q)[0] == p[0] && (p + q)[1..] == p[1..] + q;
      JoinedConcat(p[1..], q);
      ConcatAssoc(p[0], Joined(p[1..]), Joined(q));
    }
  }

  lemma JoinedAround(p: seq<seq<byte>>, i: nat)
    requires i < |p|
    ensures Joined(p) == Joined(p[..i]) + p[i] + Joined(p[i + 1..])
    ensures Start(p, i + 1) == Start(p, i) + |p[i]| <= |Joined(p)|
  {
    assert p == p[..i] + p[i..] && p[i..] == [p[i]] + p[i..][1..] && p[i..][1..] == p[i + 1..];
    JoinedConcat(p[..i], p[i..]);
    assert p[..i + 1] == p[..i] + [p[i]];
    JoinedConcat(p[..i], [p[i]]);
    assert Joined([p[i]]) == p[i] + Joined([]) == p[i];
    ConcatAssoc(Joined(p[..i]), p[i], Joined(p[i + 1..]));
  }

  lemma StartBounds(p: seq<seq<byte>>)
    ensures Start(p, 0) == 0 && Start(p, |p|) == |Joined(p)|
  {
    assert p[..|p|] == p;
  }

  /** A stretch of one part is a stretch of the whole. */
  lemma JoinedSlice(p: seq<seq<byte>>, i: nat, a: nat, n: nat)
    requires i < |p| && a + n <= |p[i]|
    ensures Start(p, i) + a + n <= |Joined(p)|
    ensures p[i][a..a + n] == Joined(p)[Start(p, i) + a..Start(p, i) + a + n]
  {
    hide Joined;
    JoinedAround(p, i);
    SliceMiddle(Joined(p[..i]), p[i], Joined(p[i + 1..]), a, n);
  }

  lemma SliceMiddle(x: seq<byte>, y: seq<byte>, z: seq<byte>, a: nat, n: nat)
    requires a + n <= |y|
    ensures y[a..a + n] == (x + y + z)[|x| + a..|x| + a + n]
  {
  }

  /** Overwriting inside one part overwrites the whole at the same place. */
  lemma JoinedSplice(p: seq<seq<byte>>, i: nat, a: nat, b: seq<byte>)
    requires i < |p| && a + |b| <= |p[i]|
    ensures Start(p, i) + a + |b| <= |Joined(p)|
    ensures Joined(p[i := Splice(p[i], a, b)]) == Splice(Joined(p), Start(p, i) + a, b)
    ensures forall j: nat | j <= |p| :: Start(p[i := Splice(p[i], a, b)], j) == Start(p, j)
  {
    hide Joined, Splice;
    var q := p[i := Splice(p[i], a, b)];
    JoinedAround(p, i);
    JoinedAround(q, i);
    assert q[..i] == p[..i] && q[i + 1..] == p[i + 1..];
    SpliceMiddle(Joined(p[..i]), p[i], Joined(p[i + 1..]), a, b);
    forall j: nat | j <= |p| ensures Start(q, j) == Start(p, j) {
      SameStarts(p, q, j);
    }
  }

  lemma SpliceMiddle(x: seq<byte>, y: seq<byte>, z: seq<byte>, a: nat, b: seq<byte>)
    requires a + |b| <= |y|
    ensures x + Splice(y, a, b) + z == Splice(x + y + z, |x| + a, b)
  {
  }

  lemma {:induction false} SameStarts(p: seq<seq<byte>>, q: seq<seq<byte>>, j: nat)
    requires |p| == |q| && forall i | 0 <= i < |p| :: |p[i]| == |q[i]|
    requires j <= |p|
    ensures Start(p, j) == Start(q, j)
  {
    if j > 0 {
      SameStarts(p, q, j - 1);
      JoinedAround(p, j - 1);
      JoinedAround(q, j - 1);
    }
  }

  lemma SpliceTwice(d: seq<byte>, o: nat, x: seq<byte>, y: seq<byte>)
    requires o + |x| + |y| <= |d|
    ensures Splice(Splice(d, o, x), o + |x|, y) == Splice(d, o, x + y)
  {
  }

  lemma SpliceOn(d: seq<byte>, o: nat, s: seq<byte>, from: nat, done: nat, more: nat)
    requires from + done + more <= |s| && o + done + more <= |d|
    ensures Splice(Splice(d, o, s[from..from + done]), o + done, s[from + done..from + done + more])
        == Splice(d, o, s[from..from + done + more])
  {
    hide Splice;
    SpliceTwice(d, o, s[from..from + done], s[from + done..from + done + more]);
    assert s[from..from + done] + s[from + done..from + done + more] == s[from..from + done + more];
  }

  lemma SpliceNothing(d: seq<byte>, o: nat)
    requires o <= |d|
    ensures Splice(d, o, []) == d
  {
  }

  // ---- the segments' bytes ----

  /** Behind the last byte of a segment. */
  function End(g: Segment, size: nat): nat {
    g.start + Scale(g.len, size)
  }

  ghost predicate Sized(v: seq<Segment>, size: nat) {
    forall i | 0 <= i < |v| :: End(v[i], size) <= v[i].data.Length
  }

  function Arrays(v: seq<Segment>): set<array<byte>> {
    set i | 0 <= i < |v| :: v[i].data
  }

  /** The bytes of one segment. */
  ghost function Bytes(g: Segment, size: nat): seq<byte>
    requires End(g, size) <= g.data.Length
    reads g.data
  {
    g.data[g.start..End(g, size)]
  }

  ghost function Parts(v: seq<Segment>, size: nat): (p: seq<seq<byte>>)
    requires Sized(v, size)
    reads Arrays(v)
    ensures |p| == |v| && forall i | 0 <= i < |v| :: p[i] == Bytes(v[i], size) && |p[i]| == Scale(v[i].len, size)
  {
    if v == [] then [] else
      assert forall i | 0 <= i < |v[1..]| :: v[1..][i] == v[i + 1];
      [Bytes(v[0], size)] + Parts(v[1..], size)
  }

  /** What the list means: the bytes of its segments, one after the other. */
  ghost function Flat(v: seq<Segment>, size: nat): seq<byte>
    requires Sized(v, size)
    reads Arrays(v)
  {
    Joined(Parts(v, size))
  }

  function TotalLen(v: seq<Segment>): nat {
    if v == [] then 0 else TotalLen(v[..|v| - 1]) + v[|v| - 1].len
  }

  lemma ScaleNone(size: nat)
    ensures Scale(0, size) == 0
  {
  }

  lemma Distribute(a: nat, b: nat, size: nat)
    ensures Scale(a + b, size) == Scale(a, size) + Scale(b, size)
  {
  }

  lemma {:induction false} StartOfSegment(v: seq<Segment>, size: nat, i: nat)
    requires Sized(v, size) && i <= |v|
    ensures Start(Parts(v, size), i) == Scale(TotalLen(v[..i]), size)
  {
    hide Sized, Scale, Joined;
    ScaleNone(size);
    var p := Parts(v, size);
    StartBounds(p);
    if i > 0 {
      StartOfSegment(v, size, i - 1);
      JoinedAround(p, i - 1);
      assert v[..i][..i - 1] == v[..i - 1];
      Distribute(TotalLen(v[..i - 1]), v[i - 1].len, size);
    }
  }

  lemma FlatLength(v: seq<Segment>, size: nat)
    requires Sized(v, size)
    ensures |Flat(v, size)| == Scale(TotalLen(v), size)
  {
    StartOfSegment(v, size, |v|);
    StartBounds(Parts(v, size));
    assert v[..|v|] == v;
  }

  lemma SingleLen(g: Segment)
    ensures TotalLen([g]) == g.len
  {
    assert [g][..0] == [];
  }

  method SumOfLengths(v: seq<Segment>) returns (n: nat)
    ensures n == TotalLen(v)
  {
    n := 0;
    for i := 0 to |v|
      invariant n == TotalLen(v[..i])
    {
      assert v[..i + 1][..i] == v[..i];
      n := n + v[i].len;
    }
    assert v[..|v|] == v;
  }

  // ---- the flat copy ----

  predicate InRange(pos: nat, count: nat, len: nat) {
    pos < len && pos + count <= len
  }

  /** When a copy is allowed. Only a copy between two single segments lets a zero length
      pass without looking at the positions. */
  predicate CopyAllowed(source: seq<Segment>, sourcePos: nat, sourceSize: nat, sourceCount: nat,
                        dest: seq<Segment>, destPos: nat, destSize: nat, destCount: nat) {
    || (|source| == 1 && |dest| == 1 && sourceCount == 0 && destCount == 0)
    || (&& Scale(sourceCount, sourceSize) == Scale(destCount, destSize)
        && InRange(sourcePos, sourceCount, TotalLen(source)) && InRange(destPos, destCount, TotalLen(dest)))
  }

  /** One contiguous copy of n bytes. */
  function FlatCopy(s: seq<byte>, from: nat, d: seq<byte>, to: nat, n: nat): seq<byte>
    requires n > 0 ==> from + n <= |s| && to + n <= |d|
  {
    if n == 0 then d else Splice(d, to, s[from..from + n])
  }

  /** Segments that have no byte in common; they may lie in the same array. */
  ghost predicate Disjoint(g: Segment, gSize: nat, h: Segment, hSize: nat) {
    || g.data != h.data || End(g, gSize) <= h.start || End(h, hSize) <= g.start
    || Scale(g.len, gSize) == 0 || Scale(h.len, hSize) == 0
  }

  /** No segment of the destination shares a byte with another one or with the source. */
  ghost predicate Apart(source: seq<Segment>, sourceSize: nat, dest: seq<Segment>, destSize: nat) {
    && (forall i, j | 0 <= i < |source| && 0 <= j < |dest| :: Disjoint(source[i], sourceSize, dest[j], destSize))
    && forall i, j | 0 <= i < |dest| && 0 <= j < |dest| && i != j :: Disjoint(dest[i], destSize, dest[j], destSize)
  }

  method Memcpy(d: array<byte>, to: nat, s: array<byte>, from: nat, n: nat)
    requires to + n <= d.Length && from + n <= s.Length
    requires d != s || to + n <= from || from + n <= to || n == 0
    modifies d
    ensures d[..] == Splice(old(d[..]), to, old(s[from..from + n]))
  {
    forall i | 0 <= i < n {
      d[to + i] := s[from + i];
    }
  }

  lemma Bounds(pos: nat, count: nat, len: nat, size: nat)
    requires InRange(pos, count, len)
    ensures Scale(pos, size) + Scale(count, size) <= Scale(len, size)
  {
    Distribute(pos, count, size);
  }

  /** Writing piece into a stretch of an array overwrites the stretch there. */
  lemma StretchOverwritten(was: seq<byte>, now: seq<byte>, a: nat, b: nat, to: nat, piece: seq<byte>)
    requires |was| == |now| && a <= b <= |was| && a + to + |piece| <= b && now == Splice(was, a + to, piece)
    ensures now[a..b] == Splice(was[a..b], to, piece)
    ensures forall x | 0 <= x < |was| && !(a <= x < b) :: now[x] == was[x]
  {
  }

  /** Another stretch stays as it was. */
  lemma StretchKept(was: seq<byte>, now: seq<byte>, a: nat, b: nat, o: nat, piece: seq<byte>)
    requires |was| == |now| && a <= b <= |was| && o + |piece| <= |was| && now == Splice(was, o, piece)
    requires b <= o || o + |piece| <= a || a == b || piece == []
    ensures now[a..b] == was[a..b]
  {
  }

  lemma SliceOfSlice(s: seq<byte>, a: nat, b: nat, i: nat, n: nat)
    requires a <= b <= |s| && i + n <= b - a
    ensures s[a..b][i..i + n] == s[a + i..a + i + n]
  {
    var t, u := s[a..b][i..i + n], s[a + i..a + i + n];
    forall k | 0 <= k < n ensures t[k] == u[k] {
      assert t[k] == s[a..b][i + k] == s[a + i + k] == u[k];
    }
  }

  /** The copy within one pair of segments: the bytes of dest change as in a flat copy, the
      rest of its array does not. */
  method CopyWithin(source: Segment, from: nat, sourceSize: nat, dest: Segment, to: nat, destSize: nat, n: nat)
    requires End(source, sourceSize) <= source.data.Length && End(dest, destSize) <= dest.data.Length
    requires Disjoint(source, sourceSize, dest, destSize)
    requires from + n <= Scale(source.len, sourceSize) && to + n <= Scale(dest.len, destSize)
    modifies dest.data
    ensures Bytes(dest, destSize) == Splice(old(Bytes(dest, destSize)), to,
        old(Bytes(source, sourceSize))[from..from + n])
    ensures forall x | 0 <= x < dest.data.Length && !(dest.start <= x < End(dest, destSize)) ::
        dest.data[x] == old(dest.data[x])
    ensures Bytes(source, sourceSize) == old(Bytes(source, sourceSize))
  {
    hide Splice, Scale;
    ghost var was, piece := dest.data[..], source.data[source.start + from..source.start + from + n];
    SliceOfSlice(source.data[..], source.start, End(source, sourceSize), from, n);
    Memcpy(dest.data, dest.start + to, source.data, source.start + from, n);
    StretchOverwritten(was, dest.data[..], dest.start, End(dest, destSize), to, piece);
    if source.data == dest.data {
      StretchKept(was, dest.data[..], source.start, End(source, sourceSize), dest.start + to, piece);
    }
  }

  /** buffer_copy_ex: one segment to one segment. */
  method CopySegment(source: Segment, sourcePos: nat, sourceSize: nat, sourceCount: nat,
                     dest: Segment, destPos: nat, destSize: nat, destCount: nat) returns (rv: Status)
    requires End(source, sourceSize) <= source.data.Length && End(dest, destSize) <= dest.data.Length
    requires Disjoint(source, sourceSize, dest, destSize)
    modifies dest.data
    ensures rv == if CopyAllowed([source], sourcePos, sourceSize, sourceCount, [dest], destPos, destSize, destCount)
        then Success else OutOfRange
    ensures rv == Success && Scale(sourceCount, sourceSize) > 0 ==>
              && Scale(sourcePos, sourceSize) + Scale(sourceCount, sourceSize) <= Scale(source.len, sourceSize)
              && Scale(destPos, destSize) + Scale(sourceCount, sourceSize) <= Scale(dest.len, destSize)
    ensures rv == Success ==>
              Bytes(dest, destSize) == FlatCopy(old(Bytes(source, sourceSize)), Scale(sourcePos, sourceSize),
                  old(Bytes(dest, destSize)),
                                                Scale(destPos, destSize), Scale(sourceCount, sourceSize))
    ensures forall x | 0 <= x < dest.data.Length && !(dest.start <= x < End(dest, destSize)) ::
        dest.data[x] == old(dest.data[x])
    ensures rv != Success ==> dest.data[..] == old(dest.data[..])
  {
    hide Splice, Scale, TotalLen;
    ScaleNone(sourceSize);
    SingleLen(source);
    SingleLen(dest);
    if sourceCount == 0 && destCount == 0 {
      return Success;
    }
    if Scale(sourceCount, sourceSize) != Scale(destCount, destSize) {
      return OutOfRange;
    }
    if !(sourcePos < source.len) || sourcePos + sourceCount > source.len || !(destPos < dest.len)
        || destPos + destCount > dest.len {
      return OutOfRange;
    }
    Bounds(sourcePos, sourceCount, source.len, sourceSize);
    Bounds(destPos, destCount, dest.len, destSize);
    SpliceNothing(Bytes(dest, destSize), Scale(destPos, destSize));
    CopyWithin(source, Scale(sourcePos, sourceSize), sourceSize, dest, Scale(destPos, destSize), destSize,
        Scale(sourceCount, sourceSize));
    assert Bytes(source, sourceSize) == old(Bytes(source, sourceSize));
    if Scale(sourceCount, sourceSize) == 0 {
      assert Bytes(source, sourceSize)[Scale(sourcePos, sourceSize)..Scale(sourcePos, sourceSize)] == [];
    }
    return Success;
  }

  // ---- the two index loops ----

  /** Index i and offset at inside segment i stand for position pos of the flat bytes. */
  ghost predicate Stands(p: seq<seq<byte>>, i: nat, at: nat, pos: nat) {
    i < |p| && at <= |p[i]| && Start(p, i) + at == pos
  }

  /** The first loop of each side: skip the segments before the position. */
  method Locate(v: seq<Segment>, size: nat, pos: nat) returns (i: nat, at: nat)
    requires Sized(v, size) && |v| > 0 && pos <= |Flat(v, size)|
    ensures Stands(Parts(v, size), i, at, pos)
  {
    hide Sized, Joined, Scale;
    ghost var p := Parts(v, size);
    var current := 0;
    i := 0;
    StartBounds(p);
    while current + Scale(v[i].len, size) < pos
      invariant i < |v| && current == Start(p, i) <= pos && pos <= |Joined(p)|
      decreases |v| - i
    {
      JoinedAround(p, i);
      current := current + Scale(v[i].len, size);
      i := i + 1;
      StartBounds(p);
    }
    at := if current < pos then pos - current else 0;
    assert |p[i]| == Scale(v[i].len, size);
    assert Parts(v, size) == p;
  }

  /** A position short of the end, at the end of segment i, is the start of segment i + 1. */
  lemma StepOver(p: seq<seq<byte>>, i: nat, pos: nat)
    requires i < |p| && Stands(p, i, |p[i]|, pos) && pos < |Joined(p)|
    ensures Stands(p, i + 1, 0, pos)
  {
    JoinedAround(p, i);
    StartBounds(p);
  }

  /** One part overwritten in part, the others as they were. */
  lemma PartOverwritten(was: seq<seq<byte>>, now: seq<seq<byte>>, i: nat, a: nat, b: seq<byte>)
    requires |was| == |now| && i < |was| && a + |b| <= |was[i]| && now[i] == Splice(was[i], a, b)
    requires forall j | 0 <= j < |was| && j != i :: now[j] == was[j]
    ensures Start(was, i) + a + |b| <= |Joined(was)|
    ensures Joined(now) == Splice(Joined(was), Start(was, i) + a, b)
    ensures forall j: nat | j <= |was| :: Start(now, j) == Start(was, j)
  {
    hide Joined, Splice, Start;
    assert now == was[i := Splice(was[i], a, b)];
    JoinedSplice(was, i, a, b);
  }

  /** The byte belongs to one of the segments. */
  ghost predicate Covered(v: seq<Segment>, size: nat, d: array<byte>, x: nat) {
    exists k :: 0 <= k < |v| && v[k].data == d && v[k].start <= x < End(v[k], size)
  }

  /** The bytes of the arrays that belong to no segment do not change. */
  twostate predicate OthersKept(v: seq<Segment>, size: nat)
    reads Arrays(v)
  {
    forall k, x | 0 <= k < |v| && 0 <= x < v[k].data.Length && !Covered(v, size, v[k].data, x) ::
        v[k].data[x] == old(v[k].data[x])
  }

  lemma Distinct(source: seq<Segment>, sourceSize: nat, dest: seq<Segment>, destSize: nat, i: nat, j: nat)
    requires Apart(source, sourceSize, dest, destSize) && i < |source| && j < |dest|
    ensures Disjoint(source[i], sourceSize, dest[j], destSize) && dest[j].data in Arrays(dest)
  {
  }

  /** A stretch that shares no byte with the one written stays as it was. */
  lemma KeptStretch(was: seq<byte>, now: seq<byte>, a: nat, b: nat, lo: nat, hi: nat)
    requires |was| == |now| && a <= b <= |was| && lo <= hi <= |was|
    requires forall x | 0 <= x < |was| && !(lo <= x < hi) :: now[x] == was[x]
    requires b <= lo || hi <= a || a == b || lo == hi
    ensures now[a..b] == was[a..b]
  {
  }

  /** One memcpy of the main loop: it changes one part of the destination and no other part of
      either side. */
  method CopyPart(source: seq<Segment>, sourceSize: nat, i: nat, from: nat, dest: seq<Segment>, destSize: nat,
          j: nat, to: nat, n: nat)
    requires Sized(source, sourceSize) && Sized(dest, destSize) && Apart(source, sourceSize, dest, destSize)
    requires i < |source| && j < |dest| && from + n <= Scale(source[i].len, sourceSize)
        && to + n <= Scale(dest[j].len, destSize)
    modifies Arrays(dest)
    ensures Parts(source, sourceSize) == old(Parts(source, sourceSize))
    ensures forall k | 0 <= k < |dest| && k != j :: Parts(dest, destSize)[k] == old(Parts(dest, destSize))[k]
    ensures Parts(dest, destSize)[j] == Splice(old(Parts(dest, destSize))[j], to,
        old(Parts(source, sourceSize))[i][from..from + n])
    ensures OthersKept(dest, destSize)
  {
    hide Splice, Scale, Apart, Parts;
    ghost var lo, hi := dest[j].start, End(dest[j], destSize);
    Distinct(source, sourceSize, dest, destSize, i, j);
    SizedAt(dest, destSize, j);
    CopyWithin(source[i], from, sourceSize, dest[j], to, destSize, n);
    forall k | 0 <= k < |source| ensures Bytes(source[k], sourceSize) == old(Bytes(source[k], sourceSize)) {
      var g := source[k];
      Distinct(source, sourceSize, dest, destSize, k, j);
      if g.data == dest[j].data {
        KeptStretch(old(g.data[..]), g.data[..], g.start, End(g, sourceSize), lo, hi);
      }
    }
    forall k | 0 <= k < |dest| && k != j ensures Bytes(dest[k], destSize) == old(Bytes(dest[k], destSize)) {
      var g := dest[k];
      OtherSegments(source, sourceSize, dest, destSize, k, j);
      if g.data == dest[j].data {
        KeptStretch(old(g.data[..]), g.data[..], g.start, End(g, destSize), lo, hi);
      }
    }
  }

  /** The same, seen on the joined bytes. */
  method CopyPiece(source: seq<Segment>, sourceSize: nat, i: nat, from: nat, dest: seq<Segment>, destSize: nat,
          j: nat, to: nat, n: nat)
    requires Sized(source, sourceSize) && Sized(dest, destSize) && Apart(source, sourceSize, dest, destSize)
    requires i < |source| && j < |dest| && from + n <= Scale(source[i].len, sourceSize)
        && to + n <= Scale(dest[j].len, destSize)
    modifies Arrays(dest)
    ensures Flat(source, sourceSize) == old(Flat(source, sourceSize))
    ensures Start(Parts(source, sourceSize), i) + from + n <= |Flat(source, sourceSize)|
    ensures Start(Parts(dest, destSize), j) + to + n <= |old(Flat(dest, destSize))|
    ensures Parts(source, sourceSize) == old(Parts(source, sourceSize))
    ensures forall k: nat | k <= |dest| :: Start(Parts(dest, destSize), k) == old(Start(Parts(dest, destSize), k))
    ensures Flat(dest, destSize)
         == Splice(old(Flat(dest, destSize)), Start(Parts(dest, destSize), j) + to,
                   Flat(source, sourceSize)[Start(Parts(source, sourceSize), i) + from
                                            ..Start(Parts(source, sourceSize), i) + from + n])
    ensures OthersKept(dest, destSize)
  {
    hide Joined, Splice, Scale, Start, Apart, Sized, Parts, OthersKept;
    ghost var was, piece := Parts(dest, destSize), Parts(source, sourceSize)[i][from..from + n];
    JoinedSlice(Parts(source, sourceSize), i, from, n);
    CopyPart(source, sourceSize, i, from, dest, destSize, j, to, n);
    PartOverwritten(was, Parts(dest, destSize), j, to, piece);
  }

  lemma SizedAt(v: seq<Segment>, size: nat, i: nat)
    requires Sized(v, size) && i < |v|
    ensures End(v[i], size) <= v[i].data.Length && v[i].data in Arrays(v)
  {
  }

  lemma OtherSegments(source: seq<Segment>, sourceSize: nat, dest: seq<Segment>, destSize: nat, i: nat, j: nat)
    requires Apart(source, sourceSize, dest, destSize) && i < |dest| && j < |dest| && i != j
    ensures Disjoint(dest[i], destSize, dest[j], destSize)
  {
  }

  datatype Place = Place(i: nat, at: nat)

  /** Between two pieces: done bytes are copied, and both places stand right behind them. */
  ghost predicate Copying(source: seq<Segment>, sourceSize: nat, sourcePos: nat, a: Place, dest: seq<Segment>,
          destSize: nat, destPos: nat, b: Place,
                          s: seq<byte>, d: seq<byte>, done: nat)
    requires Sized(source, sourceSize) && Sized(dest, destSize)
    reads Arrays(source), Arrays(dest)
  {
    && sourcePos + done <= |s| && destPos + done <= |d|
    && Flat(source, sourceSize) == s
    && Stands(Parts(source, sourceSize), a.i, a.at, sourcePos + done)
    && Stands(Parts(dest, destSize), b.i, b.at, destPos + done)
    && Flat(dest, destSize) == Splice(d, destPos, s[sourcePos..sourcePos + done])
  }

  method CopyStep(source: seq<Segment>, sourceSize: nat, sourcePos: nat, a: Place, dest: seq<Segment>, destSize: nat,
          destPos: nat, b: Place,
                  n: nat, ghost s: seq<byte>, ghost d: seq<byte>, ghost done: nat)
    requires Sized(source, sourceSize) && Sized(dest, destSize) && Apart(source, sourceSize, dest, destSize)
    requires Copying(source, sourceSize, sourcePos, a, dest, destSize, destPos, b, s, d, done)
    requires a.i < |source| && a.at + n <= Scale(source[a.i].len, sourceSize)
    requires b.i < |dest| && b.at + n <= Scale(dest[b.i].len, destSize)
    modifies Arrays(dest)
    ensures Copying(source, sourceSize, sourcePos, a.(at := a.at + n), dest, destSize, destPos, b.(at := b.at + n), s,
        d, done + n)
    ensures OthersKept(dest, destSize)
  {
    hide Joined, Splice, Sized, Apart, Scale, Start, Parts, OthersKept;
    CopyPiece(source, sourceSize, a.i, a.at, dest, destSize, b.i, b.at, n);
    SpliceOn(d, destPos, s, sourcePos, done, n);
  }

  lemma CopyingPlaces(source: seq<Segment>, sourceSize: nat, sourcePos: nat, a: Place, dest: seq<Segment>,
          destSize: nat, destPos: nat, b: Place,
                      s: seq<byte>, d: seq<byte>, done: nat)
    requires Sized(source, sourceSize) && Sized(dest, destSize)
    requires Copying(source, sourceSize, sourcePos, a, dest, destSize, destPos, b, s, d, done)
    ensures a.i < |source| && a.at <= Scale(source[a.i].len, sourceSize)
    ensures b.i < |dest| && b.at <= Scale(dest[b.i].len, destSize)
  {
    hide Joined, Splice, Sized, Scale, Start;
  }

  /** Stepping over an exhausted segment while bytes are still missing. */
  lemma SkipSource(source: seq<Segment>, sourceSize: nat, sourcePos: nat, a: Place, dest: seq<Segment>,
          destSize: nat, destPos: nat, b: Place,
                   s: seq<byte>, d: seq<byte>, done: nat)
    requires Sized(source, sourceSize) && Sized(dest, destSize)
    requires Copying(source, sourceSize, sourcePos, a, dest, destSize, destPos, b, s, d, done)
    requires sourcePos + done < |s| && a.i < |source| && a.at == Scale(source[a.i].len, sourceSize)
    ensures Copying(source, sourceSize, sourcePos, Place(a.i + 1, 0), dest, destSize, destPos, b, s, d, done)
  {
    hide Joined, Splice, Sized, Scale, Start;
    StepOver(Parts(source, sourceSize), a.i, sourcePos + done);
  }

  lemma SkipDest(source: seq<Segment>, sourceSize: nat, sourcePos: nat, a: Place, dest: seq<Segment>, destSize: nat,
          destPos: nat, b: Place,
                 s: seq<byte>, d: seq<byte>, done: nat)
    requires Sized(source, sourceSize) && Sized(dest, destSize)
    requires Copying(source, sourceSize, sourcePos, a, dest, destSize, destPos, b, s, d, done)
    requires destPos + done < |d| && b.i < |dest| && b.at == Scale(dest[b.i].len, destSize)
    ensures Copying(source, sourceSize, sourcePos, a, dest, destSize, destPos, Place(b.i + 1, 0), s, d, done)
  {
    hide Joined, Sized, Scale, Start;
    StepOver(Parts(dest, destSize), b.i, destPos + done);
  }

  method StartCopying(source: seq<Segment>, sourceSize: nat, sourcePos: nat, dest: seq<Segment>, destSize: nat,
          destPos: nat) returns (a: Place, b: Place)
    requires Sized(source, sourceSize) && Sized(dest, destSize) && |source| > 0 && |dest| > 0
    requires sourcePos <= |Flat(source, sourceSize)| && destPos <= |Flat(dest, destSize)|
    ensures Copying(source, sourceSize, sourcePos, a, dest, destSize, destPos, b, old(Flat(source, sourceSize)),
        old(Flat(dest, destSize)), 0)
  {
    hide Joined, Splice, Sized, Scale, Start;
    ghost var s := Flat(source, sourceSize);
    var i, from := Locate(source, sourceSize, sourcePos);
    assert Parts(source, sourceSize) == old(Parts(source, sourceSize))
        && Parts(dest, destSize) == old(Parts(dest, destSize));
    var j, to := Locate(dest, destSize, destPos);
    assert Parts(source, sourceSize) == old(Parts(source, sourceSize))
        && Parts(dest, destSize) == old(Parts(dest, destSize));
    SpliceNothing(Flat(dest, destSize), destPos);
    assert s[sourcePos..sourcePos] == [];
    a, b := Place(i, from), Place(j, to);
  }

  /** The main loop: exhausted segments are stepped over, the rest is copied in the largest
      pieces both sides allow. It ends, never leaves the lists, and copies exactly n bytes. */
  method CopyLoop(source: seq<Segment>, sourceSize: nat, sourcePos: nat, dest: seq<Segment>, destSize: nat,
          destPos: nat, n: nat)
    requires Sized(source, sourceSize) && Sized(dest, destSize) && Apart(source, sourceSize, dest, destSize)
        && |source| > 0 && |dest| > 0
    requires sourcePos + n <= |Flat(source, sourceSize)| && destPos + n <= |Flat(dest, destSize)|
    modifies Arrays(dest)
    ensures Flat(dest, destSize) == FlatCopy(old(Flat(source, sourceSize)), sourcePos, old(Flat(dest, destSize)),
        destPos, n)
    ensures OthersKept(dest, destSize)
  {
    hide Flat, Splice, Sized, Apart, Scale, Copying;
    ghost var s, d := Flat(source, sourceSize), Flat(dest, destSize);
    var a, b := StartCopying(source, sourceSize, sourcePos, dest, destSize, destPos);
    var left: nat := n;
    while left > 0
      invariant left <= n
      invariant Copying(source, sourceSize, sourcePos, a, dest, destSize, destPos, b, s, d, n - left)
      invariant OthersKept(dest, destSize)
      decreases left + |source| - a.i + |dest| - b.i
    {
      CopyingPlaces(source, sourceSize, sourcePos, a, dest, destSize, destPos, b, s, d, n - left);
      var sourceRoom := Scale(source[a.i].len, sourceSize) - a.at;
      var destRoom := Scale(dest[b.i].len, destSize) - b.at;
      if sourceRoom == 0 {
        SkipSource(source, sourceSize, sourcePos, a, dest, destSize, destPos, b, s, d, n - left);
        a := Place(a.i + 1, 0);
        continue;
      }
      if destRoom == 0 {
        SkipDest(source, sourceSize, sourcePos, a, dest, destSize, destPos, b, s, d, n - left);
        b := Place(b.i + 1, 0);
        continue;
      }
      var delta := if sourceRoom < destRoom then sourceRoom else destRoom;
      delta := if left < delta then left else delta;
      CopyStep(source, sourceSize, sourcePos, a, dest, destSize, destPos, b, delta, s, d, n - left);
      left, a, b := left - delta, a.(at := a.at + delta), b.(at := b.at + delta);
    }
    Copied(source, sourceSize, sourcePos, a, dest, destSize, destPos, b, s, d, n);
  }

  lemma Copied(source: seq<Segment>, sourceSize: nat, sourcePos: nat, a: Place, dest: seq<Segment>, destSize: nat,
          destPos: nat, b: Place,
               s: seq<byte>, d: seq<byte>, n: nat)
    requires Sized(source, sourceSize) && Sized(dest, destSize)
    requires Copying(source, sourceSize, sourcePos, a, dest, destSize, destPos, b, s, d, n)
    ensures sourcePos + n <= |s| && destPos + n <= |d|
    ensures Flat(dest, destSize) == FlatCopy(s, sourcePos, d, destPos, n)
  {
    hide Joined, Splice, Sized, Scale, Start;
    if n == 0 {
      assert s[sourcePos..sourcePos] == [];
      SpliceNothing(d, destPos);
    }
  }

  /** The branch for single segments on both sides. */
  method CopySingle(source: seq<Segment>, sourcePos: nat, sourceSize: nat, sourceCount: nat,
                    dest: seq<Segment>, destPos: nat, destSize: nat, destCount: nat) returns (rv: Status)
    requires |source| == 1 && |dest| == 1
    requires Sized(source, sourceSize) && Sized(dest, destSize) && Apart(source, sourceSize, dest, destSize)
    modifies Arrays(dest)
    ensures rv == if CopyAllowed(source, sourcePos, sourceSize, sourceCount, dest, destPos, destSize, destCount)
        then Success
                  else OutOfRange
    ensures rv == Success && Scale(sourceCount, sourceSize) > 0 ==>
              && Scale(sourcePos, sourceSize) + Scale(sourceCount, sourceSize) <= |old(Flat(source, sourceSize))|
              && Scale(destPos, destSize) + Scale(sourceCount, sourceSize) <= |old(Flat(dest, destSize))|
    ensures rv == Success ==>
              Flat(dest, destSize)
              == FlatCopy(old(Flat(source, sourceSize)), Scale(sourcePos, sourceSize), old(Flat(dest, destSize)),
                          Scale(destPos, destSize), Scale(sourceCount, sourceSize))
    ensures OthersKept(dest, destSize)
    ensures rv != Success ==> forall k | 0 <= k < |dest| :: dest[k].data[..] == old(dest[k].data[..])
  {
    hide Joined, Splice, FlatCopy, Scale, Flat;
    Distinct(source, sourceSize, dest, destSize, 0, 0);
    SingleFlat(source, sourceSize);
    SingleFlat(dest, destSize);
    rv := CopySegment(source[0], sourcePos, sourceSize, sourceCount, dest[0], destPos, destSize, destCount);
    SingleFlat(dest, destSize);
  }

  /** buffer_vec_copy_vec_ex: it succeeds exactly when the copy is allowed, and then the
      joined bytes of dest change exactly as in one contiguous copy. */
  method CopySegments(source: seq<Segment>, sourcePos: nat, sourceSize: nat, sourceCount: nat,
                      dest: seq<Segment>, destPos: nat, destSize: nat, destCount: nat) returns (rv: Status)
    requires Sized(source, sourceSize) && Sized(dest, destSize) && Apart(source, sourceSize, dest, destSize)
    modifies Arrays(dest)
    ensures rv == if CopyAllowed(source, sourcePos, sourceSize, sourceCount, dest, destPos, destSize, destCount)
        then Success
                  else OutOfRange
    ensures rv == Success && Scale(sourceCount, sourceSize) > 0 ==>
              && Scale(sourcePos, sourceSize) + Scale(sourceCount, sourceSize) <= |old(Flat(source, sourceSize))|
              && Scale(destPos, destSize) + Scale(sourceCount, sourceSize) <= |old(Flat(dest, destSize))|
    ensures rv == Success ==>
              Flat(dest, destSize)
              == FlatCopy(old(Flat(source, sourceSize)), Scale(sourcePos, sourceSize), old(Flat(dest, destSize)),
                          Scale(destPos, destSize), Scale(sourceCount, sourceSize))
    ensures OthersKept(dest, destSize)
    ensures rv != Success ==> forall k | 0 <= k < |dest| :: dest[k].data[..] == old(dest[k].data[..])
  {
    hide Joined, Splice, FlatCopy, Scale, Parts, Apart;
    if |source| == 1 && |dest| == 1 {
      hide Flat, OthersKept;
      rv := CopySingle(source, sourcePos, sourceSize, sourceCount, dest, destPos, destSize, destCount);
      return;
    }
    ScaleNone(sourceSize);
    FlatLength(source, sourceSize);
    FlatLength(dest, destSize);
    if Scale(sourceCount, sourceSize) != Scale(destCount, destSize) {
      return OutOfRange;
    }
    var sourceLen := SumOfLengths(source);
    var destLen := SumOfLengths(dest);
    if !(sourcePos < sourceLen) || sourcePos + sourceCount > sourceLen || !(destPos < destLen)
       || destPos + destCount > destLen {
      return OutOfRange;
    }
    assert Parts(source, sourceSize) == old(Parts(source, sourceSize));
    assert Parts(dest, destSize) == old(Parts(dest, destSize));
    hide Flat, OthersKept;
    Bounds(sourcePos, sourceCount, sourceLen, sourceSize);
    Bounds(destPos, destCount, destLen, destSize);
    CopyLoop(source, sourceSize, Scale(sourcePos, sourceSize), dest, destSize, Scale(destPos, destSize),
             Scale(sourceCount, sourceSize));
    return Success;
  }

  lemma SingleFlat(v: seq<Segment>, size: nat)
    requires Sized(v, size) && |v| == 1
    ensures Flat(v, size) == Bytes(v[0], size) && v == [v[0]]
  {
    var p := Parts(v, size);
    assert p == [Bytes(v[0], size)];
    assert Joined(p) == p[0] + Joined([]) == p[0];
  }
}
