/** Agreement on object types: the server's reply to an object type request (node.c), read
    and judged by the client's check against its list of expected types (node.c, util.c). */
module TypeAgreement {
  import opened Base
  import opened Wire
  import opened Headers
  import opened Tree
  import opened Cursor
  import opened Reader
  import opened RoundTrip
  import opened Search
  import opened Lookup
  import opened MessageHeaders
  import opened WholeMessage
  import Handshake
  import Uniqueness

  const SEMICOLON: byte := 59
  const STRING_TYPE: u16 := 11
  const NAME_LIMIT: nat := 128

  const OBJECT_TYPE: text := [111, 98, 106, 101, 99, 116, 116, 121, 112, 101]
  const OBJECT_IMPLEMENTS: text := [111, 98, 106, 101, 99, 116, 105, 109, 112, 108, 101, 109, 101, 110, 116, 115]

  // ---- ';'-separated lists ----

  /** The non-empty parts between semicolons; part is the one being read. */
  function TokensFrom(list: text, k: nat, i: nat): seq<text>
    requires k <= i <= |list|
    decreases |list| - i
  {
    if i == |list| then (if k < |list| then [list[k..]] else [])
    else if list[i] == SEMICOLON then (if k < i then [list[k..i]] else []) + TokensFrom(list, i + 1, i + 1)
    else TokensFrom(list, k, i + 1)
  }

  function Tokens(list: text): seq<text> {
    TokensFrom(list, 0, 0)
  }

  /** A token is a maximal run without semicolons. */
  predicate IsToken(list: text, a: nat, b: nat) {
    && a < b <= |list| && (forall k | a <= k < b :: list[k] != SEMICOLON)
    && (a == 0 || list[a - 1] == SEMICOLON) && (b == |list| || list[b] == SEMICOLON)
  }

  /** t is a token that starts at k or later. */
  ghost predicate HasToken(list: text, k: nat, t: text) {
    exists a: nat, b: nat :: k <= a && IsToken(list, a, b) && t == list[a..b]
  }

  lemma {:induction false} TokensAreRuns(list: text, k: nat, i: nat, t: text)
    requires k <= i <= |list| && (k == 0 || list[k - 1] == SEMICOLON) && forall j | k <= j < i :: list[j] != SEMICOLON
    ensures t in TokensFrom(list, k, i) <==> HasToken(list, k, t)
    decreases |list| - i
  {
    if i == |list| {
      if k < |list| {
        assert IsToken(list, k, |list|) && list[k..] == list[k..|list|];
      }
    } else if list[i] == SEMICOLON {
      TokensAreRuns(list, i + 1, i + 1, t);
      RunEndsAt(list, k, i, t);
    } else {
      TokensAreRuns(list, k, i + 1, t);
    }
  }

  lemma RunEndsAt(list: text, k: nat, i: nat, t: text)
    requires k <= i < |list| && (k == 0 || list[k - 1] == SEMICOLON) && (forall j | k <= j < i :: list[j] != SEMICOLON)
        && list[i] == SEMICOLON
    ensures HasToken(list, k, t) <==> (k < i && t == list[k..i]) || HasToken(list, i + 1, t)
  {
    if k < i {
      assert IsToken(list, k, i);
    }
    if HasToken(list, k, t) {
      var a: nat, b: nat :| k <= a && IsToken(list, a, b) && t == list[a..b];
      if a < i {
        assert a == k;
        assert b == i;
      }
    }
  }

  /** The tokens of a list are its maximal runs without semicolons. */
  lemma TokensMean(list: text, t: text)
    ensures t in Tokens(list) <==> HasToken(list, 0, t)
  {
    TokensAreRuns(list, 0, 0, t);
  }

  /** match_string_in_list: is the value one of the list's tokens? */
  method MatchStringInList(list: text, value: text) returns (found: bool)
    ensures found <==> value in Tokens(list)
  {
    hide StringCmp;
    var i, k := 0, 0;
    while i < |list|
      invariant 0 <= k <= i <= |list|
      invariant value in Tokens(list) <==> value in TokensFrom(list, k, i)
    {
      if list[i] == SEMICOLON {
        if i - k > 0 {
          StringCmpZero(list[k..i], value);
          if StringCmp(list[k..i], value) == 0 {
            return true;
          }
        }
        k := i + 1;
      }
      i := i + 1;
    }
    if k < |list| {
      StringCmpZero(list[k..], value);
      return StringCmp(list[k..], value) == 0;
    }
    return false;
  }

  // ---- the server's reply ----

  /** Decimal digits, as printed with %u. */
  function Digits(n: nat): (d: text)
    requires n < 0xFFFF_FFFF
    ensures 0 < |d| <= n + 1
  {
    if n < 10 then [(48 + n) as byte] else Digits(n / 10) + [(48 + n % 10) as byte]
  }

  /** The number that a string of digits stands for. */
  function Number(d: text): int {
    if d == [] then 0 else 10 * Number(d[..|d| - 1]) + d[|d| - 1] as int - 48
  }

  /** The digits stand for the number, without a leading zero. */
  lemma {:induction false} DigitsMean(n: nat)
    requires n < 0xFFFF_FFFF
    ensures Number(Digits(n)) == n && forall k | 0 <= k < |Digits(n)| :: 48 <= Digits(n)[k] <= 57
    ensures Digits(n)[0] == 48 ==> n == 0
    decreases n
  {
    if n >= 10 {
      DigitsMean(n / 10);
      assert (Digits(n / 10) + [(48 + n % 10) as byte])[..|Digits(n / 10)|] == Digits(n / 10);
    } else {
      assert Digits(n)[..0] == [];
    }
  }

  function StringElement(name: text, value: text): Element {
    Raw(name, STRING_TYPE, |value|, value)
  }

  /** The implemented types, numbered from i on. */
  function Numbered(names: seq<text>, i: nat): seq<Element>
    requires i + |names| < 0xFFFF_FFFF
  {
    if names == [] then [] else [StringElement(Digits(i), names[0])] + Numbered(names[1..], i + 1)
  }

  function ImplementsHeader(): ElementHeader {
    DataHeader(OBJECT_IMPLEMENTS, LIST)
  }

  lemma {:induction false} TokenCount(list: text, k: nat, i: nat)
    requires k <= i <= |list|
    ensures |TokensFrom(list, k, i)| <= |list| - k
    decreases |list| - i
  {
    if i < |list| {
      if list[i] == SEMICOLON {
        TokenCount(list, i + 1, i + 1);
      } else {
        TokenCount(list, k, i + 1);
      }
    }
  }

  /** The elements of the reply: the type's name and, if it implements others, their list. */
  function Reply(objectType: text, implements: text): seq<Element>
    requires |implements| < 0xFFFF_FFFF
  {
    TokenCount(implements, 0, 0);
    [StringElement(OBJECT_TYPE, objectType)]
    + if |implements| > 0 then [Nested(ImplementsHeader(), Numbered(Tokens(implements), 0))] else []
  }

  lemma {:induction false} NumberedSnoc(names: seq<text>, name: text, i: nat)
    requires i + |names| + 1 < 0xFFFF_FFFF
    ensures Numbered(names + [name], i) == Numbered(names, i) + [StringElement(Digits(i + |names|), name)]
  {
    if names == [] {
      assert names + [name] == [name] && [name][1..] == [];
    } else {
      assert (names + [name])[0] == names[0] && (names + [name])[1..] == names[1..] + [name];
      NumberedSnoc(names[1..], name, i + 1);
    }
  }

  /** One character of a list read. */
  lemma TokensStep(list: text, k: nat, i: nat)
    requires k <= i < |list|
    ensures TokensFrom(list, k, i)
         == if list[i] == SEMICOLON then (if k < i then [list[k..i]] else []) + TokensFrom(list, i + 1, i + 1)
            else TokensFrom(list, k, i + 1)
  {
  }

  lemma TokensEnd(list: text, k: nat)
    requires k <= |list|
    ensures TokensFrom(list, k, |list|) == if k < |list| then [list[k..]] else []
  {
  }

  lemma NumberedNone(i: nat)
    requires i < 0xFFFF_FFFF
    ensures Numbered([], i) == []
  {
  }

  /** special_request_object_type_name: the loop that writes the list of implemented types,
      one numbered string element for each. */
  method ReplyElements(objectType: text, implements: text) returns (es: seq<Element>)
    requires |implements| < 0xFFFF_FFFF
    ensures es == Reply(objectType, implements)
  {
    hide Numbered, Digits, StringElement, TokensFrom;
    es := [StringElement(OBJECT_TYPE, objectType)];
    TokenCount(implements, 0, 0);
    if |implements| > 0 {
      var list := [];
      var i, k, n := 0, 0, 0;
      ghost var done: seq<text> := [];
      NumberedNone(0);
      while i < |implements|
        invariant 0 <= k <= i <= |implements| && n == |done|
        invariant done + TokensFrom(implements, k, i) == Tokens(implements)
        invariant list == Numbered(done, 0)
      {
        TokensStep(implements, k, i);
        if implements[i] == SEMICOLON {
          if i - k > 0 {
            NumberedSnoc(done, implements[k..i], 0);
            list := list + [StringElement(Digits(n), implements[k..i])];
            n := n + 1;
            done := done + [implements[k..i]];
          }
          k := i + 1;
        }
        i := i + 1;
      }
      TokensEnd(implements, k);
      if k < |implements| {
        NumberedSnoc(done, implements[k..], 0);
        list := list + [StringElement(Digits(n), implements[k..])];
        done := done + [implements[k..]];
      }
      assert done == Tokens(implements);
      es := es + [Nested(ImplementsHeader(), list)];
    }
  }

  // ---- the client's check ----

  function FindInEntry(s: seq<byte>, c: EntryCursor, name: text): Result<ElementCursor> {
    match BeginElements(s, c)
    case Err(e) => Err(NotFoundAtEnd(e))
    case Ok(d) => var (rv, e) := FindFrom(s, d, name); if rv == Success then Ok(e) else Err(rv)
  }

  lemma NameFits(s: seq<byte>, c: ElementCursor)
    ensures ReadData(s, c, STRING_TYPE, 1, NAME_LIMIT).Ok?
        ==> |ReadData(s, c, STRING_TYPE, 1, NAME_LIMIT).value.0| <= NAME_LIMIT
  {
    hide ParseElement, SizeSub;
  }

  function ReadName(s: seq<byte>, c: ElementCursor): Result<text> {
    NameFits(s, c);
    var (data, _) :- ReadData(s, c, STRING_TYPE, 1, NAME_LIMIT);
    Ok(data)
  }

  function AnyExpected(s: seq<byte>, c: ElementCursor, expected: text): Result<bool>
    decreases if c.current < c.total then c.total - c.current else 0
  {
    var name :- ReadName(s, c);
    if name in Tokens(expected) then Ok(true)
    else
      NextProgress(s, c);
      match ElementNext(s, c)
      case Err(e) => if e == NoMore then Ok(false) else Err(e)
      case Ok(d) => AnyExpected(s, d, expected)
  }

  /** A list that cannot be entered counts as no match. */
  function ListVerdict(s: seq<byte>, l: ElementCursor, expected: text): Result<bool> {
    match BeginNested(s, l)
    case Err(_) => Ok(false)
    case Ok(n) => AnyExpected(s, n, expected)
  }

  /** verify_objecttype_response: 1, 0 or an error. */
  function Verify(s: seq<byte>, c: EntryCursor, expected: text): Result<bool> {
    var e :- FindInEntry(s, c, OBJECT_TYPE);
    var info :- ParseElement(e.ver, s, e.off);
    if info.elementType != STRING_TYPE then Err(TypeMismatch)
    else if info.dataCount > NAME_LIMIT then Err(OutOfRange)
    else
      var name :- ReadName(s, e);
      if name in Tokens(expected) then Ok(true)
      else
        match FindInEntry(s, c, OBJECT_IMPLEMENTS)
        case Err(rv) => if rv == ElementNotFound then Ok(false) else Err(rv)
        case Ok(l) => ListVerdict(s, l, expected)
  }

  /** The object's type, or one it implements, is expected. */
  predicate Agrees(objectType: text, implements: text, expected: text) {
    objectType in Tokens(expected) || exists t :: t in Tokens(implements) && t in Tokens(expected)
  }

  lemma FoundChild(s: seq<byte>, c: EntryCursor, h: EntryHeader, es: seq<Element>, name: text, i: nat)
    requires ReadsEntry(s, c, Entry(h, es)) && i <= |es|
    requires (forall j | 0 <= j < i :: NameOf(es[j]) != name) && (i < |es| ==> NameOf(es[i]) == name) && |es| > 0
    ensures if i < |es| then FindInEntry(s, c, name).Ok? && ReadsElement(s, FindInEntry(s, c, name).value, es[i])
            else FindInEntry(s, c, name) == Err(ElementNotFound)
  {
    hide ParseEntry, EntryMatches, ReadsElement, FindFrom;
    var k := FindsChild(s, BeginElements(s, c).value, es, name);
    assert k == i;
  }

  lemma NameRead(s: seq<byte>, c: ElementCursor, name: text, value: text)
    requires ReadsElement(s, c, StringElement(name, value)) && |value| <= NAME_LIMIT
    ensures ReadName(s, c) == Ok(value)
    ensures ParseElement(c.ver, s, c.off).Ok?
    ensures var info := ParseElement(c.ver, s, c.off).value;
            info.elementType == STRING_TYPE && info.dataCount == |value|
  {
    hide ParseElement, ReadData, Holds;
    assert 1 * |value| == |value|;
    assert ReadData(s, c, STRING_TYPE, 1, NAME_LIMIT) == Ok((value, |value|));
  }

  lemma {:induction false} ListRead(s: seq<byte>, c: ElementCursor, names: seq<text>, i: nat, expected: text)
    requires i + |names| < 0xFFFF_FFFF && ReadsElements(s, c, Numbered(names, i))
    requires forall t | t in names :: |t| <= NAME_LIMIT
    ensures AnyExpected(s, c, expected) == Ok(exists t :: t in names && t in Tokens(expected))
    decreases names
  {
    hide ReadsElement, ReadName, ElementNext, Tokens, StringElement, Digits, Numbered, ReadsElements, AnyExpected;
    ReadsSome(s, c, Numbered(names, i));
    NumberedLength(names, i);
    NumberedCons(names, i);
    ReadsFirst(s, c, Numbered(names, i));
    NameRead(s, c, Digits(i), names[0]);
    NextProgress(s, c);
    AnyStep(s, c, expected);
    if names[0] !in Tokens(expected) {
      if |names| > 1 {
        ListRead(s, ElementNext(s, c).value, names[1..], i + 1, expected);
        assert forall t :: t in names <==> t == names[0] || t in names[1..];
      } else {
        assert names == [names[0]];
      }
    }
  }

  lemma ReadsSome(s: seq<byte>, c: ElementCursor, es: seq<Element>)
    requires ReadsElements(s, c, es)
    ensures es != []
  {
  }

  lemma NumberedCons(names: seq<text>, i: nat)
    requires names != [] && i + |names| < 0xFFFF_FFFF
    ensures var es := Numbered(names, i);
            es != [] && es[0] == StringElement(Digits(i), names[0]) && es[1..] == Numbered(names[1..], i + 1)
  {
  }

  lemma ReadsFirst(s: seq<byte>, c: ElementCursor, es: seq<Element>)
    requires es != [] && ReadsElements(s, c, es)
    ensures ReadsElement(s, c, es[0])
    ensures if |es| == 1 then ElementNext(s, c) == Err(NoMore)
            else ElementNext(s, c).Ok? && ReadsElements(s, ElementNext(s, c).value, es[1..])
  {
    hide ReadsElement, ElementNext;
  }

  /** One element of the walk over the list. */
  lemma AnyStep(s: seq<byte>, c: ElementCursor, expected: text)
    requires ReadName(s, c).Ok?
    ensures AnyExpected(s, c, expected)
         == if ReadName(s, c).value in Tokens(expected) then Ok(true)
            else if ElementNext(s, c).Ok? then AnyExpected(s, ElementNext(s, c).value, expected)
            else if ElementNext(s, c).status == NoMore then Ok(false) else Err(ElementNext(s, c).status)
  {
    hide ReadName, ElementNext, Tokens;
  }

  lemma {:induction false} NumberedLength(names: seq<text>, i: nat)
    requires i + |names| < 0xFFFF_FFFF
    ensures |Numbered(names, i)| == |names|
  {
    if names != [] {
      NumberedLength(names[1..], i + 1);
    }
  }

  lemma ReplyNames(objectType: text, implements: text)
    requires |implements| < 0xFFFF_FFFF
    ensures var es := Reply(objectType, implements);
            && |es| == (if |implements| > 0 then 2 else 1)
            && es[0] == StringElement(OBJECT_TYPE, objectType) && NameOf(es[0]) == OBJECT_TYPE
            && NameOf(es[0]) != OBJECT_IMPLEMENTS
            && (|es| == 2 ==> es[1].Nested? && NameOf(es[1]) == OBJECT_IMPLEMENTS)
  {
    hide Tokens;
    assert |OBJECT_TYPE| == 10 && |OBJECT_IMPLEMENTS| == 16;
  }

  lemma ListElement(objectType: text, implements: text)
    requires 0 < |implements| < 0xFFFF_FFFF
    ensures |Tokens(implements)| <= |implements|
    ensures |Reply(objectType, implements)| == 2
    ensures Reply(objectType, implements)[1] == Nested(ImplementsHeader(), Numbered(Tokens(implements), 0))
  {
    TokenCount(implements, 0, 0);
    hide TokensFrom, Numbered;
  }

  /** The nested list of the reply, once found, decides about the implemented types. */
  lemma ImplementedRead(s: seq<byte>, l: ElementCursor, names: seq<text>, expected: text)
    requires |names| < 0xFFFF_FFFF && ReadsElement(s, l, Nested(ImplementsHeader(), Numbered(names, 0)))
    requires forall t | t in names :: |t| <= NAME_LIMIT
    ensures ListVerdict(s, l, expected) == Ok(exists t :: t in names && t in Tokens(expected))
  {
    hide ParseElement, ElementMatches, BeginNested, AnyExpected, Tokens;
    NumberedLength(names, 0);
    if names != [] {
      ListRead(s, BeginNested(s, l).value, names, 0, expected);
    }
  }

  /** Agreement across the wire: wherever the server's reply is read back, and its names keep
      the client's limit, the client's check says yes exactly when the object's type or one of
      its implemented types is among the expected ones; it never fails. */
  lemma TypesAgree(s: seq<byte>, c: EntryCursor, h: EntryHeader, objectType: text, implements: text, expected: text)
    requires |implements| < 0xFFFF_FFFF && ReadsEntry(s, c, Entry(h, Reply(objectType, implements)))
    requires |objectType| <= NAME_LIMIT && forall t | t in Tokens(implements) :: |t| <= NAME_LIMIT
    ensures Verify(s, c, expected) == Ok(Agrees(objectType, implements, expected))
  {
    var es := Reply(objectType, implements);
    ReplyNames(objectType, implements);
    hide ReadsEntry, ReadsElement, FindInEntry, ParseElement, ReadName, ListVerdict, Numbered, TokensFrom, Reply;
    FoundChild(s, c, h, es, OBJECT_TYPE, 0);
    NameRead(s, FindInEntry(s, c, OBJECT_TYPE).value, OBJECT_TYPE, objectType);
    FoundChild(s, c, h, es, OBJECT_IMPLEMENTS, 1);
    if |implements| > 0 {
      ListElement(objectType, implements);
      ImplementedRead(s, FindInEntry(s, c, OBJECT_IMPLEMENTS).value, Tokens(implements), expected);
    }
  }

  // ---- any reply ----

  /** The string that an element holds, or why it cannot be read as one. */
  function StringOf(e: Element): Result<text> {
    match e
    case Nested(_, _) => Err(TypeMismatch)
    case Raw(_, dataType, count, data) =>
      if dataType != STRING_TYPE then Err(TypeMismatch)
      else if |data| != count then Err(Protocol)
      else if count > NAME_LIMIT then Err(OutOfRange)
      else Ok(data)
  }

  /** For the type itself the limit is checked first. */
  function TypeOf(e: Element): Result<text> {
    if e.Raw? && e.dataType == STRING_TYPE && e.count > NAME_LIMIT then Err(OutOfRange) else StringOf(e)
  }

  function FirstNamed(es: seq<Element>, name: text): Option<Element> {
    if es == [] then None else if NameOf(es[0]) == name then Some(es[0]) else FirstNamed(es[1..], name)
  }

  /** The first of the elements that is expected decides, unless one before it cannot be read. */
  function ChildrenVerdict(es: seq<Element>, expected: text): Result<bool> {
    if es == [] then Ok(false)
    else
      var name :- StringOf(es[0]);
      if name in Tokens(expected) then Ok(true) else ChildrenVerdict(es[1..], expected)
  }

  /** The verdict on the tree of a reply. */
  function TreeVerdict(es: seq<Element>, expected: text): Result<bool> {
    match FirstNamed(es, OBJECT_TYPE)
    case None => Err(ElementNotFound)
    case Some(e) =>
      var name :- TypeOf(e);
      if name in Tokens(expected) then Ok(true)
      else
        match FirstNamed(es, OBJECT_IMPLEMENTS)
        case Some(Nested(_, children)) => ChildrenVerdict(children, expected)
        case _ => Ok(false)
  }

  /** The type under the cursor is that of the element, and of the nestable ones none is a string. */
  lemma KindRead(s: seq<byte>, c: ElementCursor, e: Element)
    requires ReadsElement(s, c, e) && Uniqueness.Typed(e)
    ensures ParseElement(c.ver, s, c.off).Ok?
    ensures var info := ParseElement(c.ver, s, c.off).value;
            && (e.Raw? ==> info.elementType == e.dataType && info.dataCount == e.count && Shaped(e))
            && (e.Nested? ==> info.elementType != STRING_TYPE)
  {
    hide ParseElement, ReadData, Holds, BeginNested, ReadsElements;
  }

  lemma StringRead(s: seq<byte>, c: ElementCursor, e: Element)
    requires ReadsElement(s, c, e) && Uniqueness.Typed(e)
    ensures ReadName(s, c) == StringOf(e)
  {
    KindRead(s, c, e);
    match e
    case Nested(_, _) => hide ParseElement, SizeSub, ReadsElement;
    case Raw(name, dataType, count, data) =>
      if dataType == STRING_TYPE {
        if |data| == count <= NAME_LIMIT {
          NameRead(s, c, name, data);
        } else {
          BytesRead(s, c, e);
          hide ParseElement, ReadsElement, SizeSub;
        }
      } else {
        hide ParseElement, SizeSub, ReadsElement;
      }
  }

  /** The size that the header leaves for the data is the size of the data. */
  lemma BytesRead(s: seq<byte>, c: ElementCursor, e: Element)
    requires ReadsElement(s, c, e) && e.Raw? && Shaped(e) && e.count > 0
    ensures ParseElement(c.ver, s, c.off).Ok?
    ensures var info := ParseElement(c.ver, s, c.off).value;
            |e.data| == SizeSub(info.elementSize, SizeSub(info.dataStart, c.off))
  {
    var k := Uniqueness.ItemSize(e.data, e.count);
    assert ReadData(s, c, e.dataType, k, e.count) == Ok((e.data, e.count));
    hide ParseElement, SizeSub, ReadsElement;
    Uniqueness.DataLength(s, c, e.dataType, k, e.count, e.data, e.count);
  }

  lemma {:induction false} ChildrenRead(s: seq<byte>, c: ElementCursor, es: seq<Element>, expected: text)
    requires ReadsElements(s, c, es) && forall e | e in es :: Uniqueness.Typed(e)
    ensures AnyExpected(s, c, expected) == ChildrenVerdict(es, expected)
    decreases es
  {
    hide ReadsElement, ReadName, ElementNext, Tokens, StringOf, Uniqueness.Typed;
    StringRead(s, c, es[0]);
    NextProgress(s, c);
    if |es| > 1 {
      ChildrenRead(s, ElementNext(s, c).value, es[1..], expected);
    } else {
      assert es[1..] == [];
    }
  }

  /** What is found is the first element with the name. */
  lemma {:induction false} FirstNamedAt(es: seq<Element>, name: text) returns (i: nat)
    ensures i <= |es| && forall j | 0 <= j < i :: NameOf(es[j]) != name
    ensures i < |es| ==> NameOf(es[i]) == name && FirstNamed(es, name) == Some(es[i])
    ensures i == |es| ==> FirstNamed(es, name) == None
    decreases es
  {
    if es == [] || NameOf(es[0]) == name {
      i := 0;
    } else {
      i := FirstNamedAt(es[1..], name);
      i := i + 1;
    }
  }

  lemma FindsNamed(s: seq<byte>, c: EntryCursor, h: EntryHeader, es: seq<Element>, name: text)
    requires ReadsEntry(s, c, Entry(h, es))
    ensures match FirstNamed(es, name)
            case None => FindInEntry(s, c, name) == Err(ElementNotFound)
            case Some(e) =>
              e in es && FindInEntry(s, c, name).Ok? && ReadsElement(s, FindInEntry(s, c, name).value, e)
  {
    hide ParseEntry, EntryMatches, ReadsElement, FindFrom, ReadsElements;
    if es != [] {
      var i := FirstNamedAt(es, name);
      hide BeginElements, FindInEntry, FirstNamed, ReadsEntry;
      FoundChild(s, c, h, es, name, i);
    }
  }

  lemma ListJudged(s: seq<byte>, l: ElementCursor, e: Element, expected: text)
    requires ReadsElement(s, l, e) && Uniqueness.Typed(e)
    ensures ListVerdict(s, l, expected) == if e.Nested? then ChildrenVerdict(e.children, expected) else Ok(false)
  {
    match e
    case Nested(h, children) =>
      hide ParseElement, ElementMatches, BeginNested, AnyExpected, Tokens;
      if children != [] {
        ChildrenRead(s, BeginNested(s, l).value, children, expected);
      }
    case Raw(_, _, _, _) =>
      KindRead(s, l, e);
      EnteredIff(s, l);
      hide ParseElement, BeginNested, AnyExpected, ReadsElement;
  }

  lemma TypeRead(s: seq<byte>, c: ElementCursor, e: Element)
    requires ReadsElement(s, c, e) && Uniqueness.Typed(e)
    ensures ParseElement(c.ver, s, c.off).Ok?
    ensures var info := ParseElement(c.ver, s, c.off).value;
            (if info.elementType != STRING_TYPE then Err(TypeMismatch)
             else if info.dataCount > NAME_LIMIT then Err(OutOfRange)
             else ReadName(s, c)) == TypeOf(e)
  {
    KindRead(s, c, e);
    StringRead(s, c, e);
    hide ParseElement, ReadName, ReadsElement, Uniqueness.Typed;
  }

  /** Whatever a server replies: on any entry that is read back as a tree of typed elements the check over
      the cursors gives the verdict on the tree, and fails exactly as that does. */
  lemma VerdictOnTree(s: seq<byte>, c: EntryCursor, h: EntryHeader, es: seq<Element>, expected: text)
    requires ReadsEntry(s, c, Entry(h, es)) && forall e | e in es :: Uniqueness.Typed(e)
    ensures Verify(s, c, expected) == TreeVerdict(es, expected)
  {
    hide ReadsEntry, ReadsElement, FindInEntry, ParseElement, ReadName, ListVerdict, FirstNamed, ChildrenVerdict,
         Tokens, TypeOf, Uniqueness.Typed;
    FindsNamed(s, c, h, es, OBJECT_TYPE);
    FindsNamed(s, c, h, es, OBJECT_IMPLEMENTS);
    match FirstNamed(es, OBJECT_TYPE)
    case None =>
    case Some(e) =>
      TypeRead(s, FindInEntry(s, c, OBJECT_TYPE).value, e);
      match FirstNamed(es, OBJECT_IMPLEMENTS)
      case None =>
      case Some(l) => ListJudged(s, FindInEntry(s, c, OBJECT_IMPLEMENTS).value, l, expected);
  }

  // ---- from the server's buffer to the client's verdict ----

  function Power10(k: nat): nat {
    if k == 0 then 1 else 10 * Power10(k - 1)
  }

  lemma {:induction false} DigitsShort(n: nat, k: nat)
    requires n < 0xFFFF_FFFF && k > 0 && n < Power10(k)
    ensures |Digits(n)| <= k
    decreases k
  {
    if n >= 10 {
      DigitsShort(n / 10, k - 1);
    }
  }

  lemma NumberShort(n: nat)
    requires n < 0xFFFF_FFFF
    ensures |Digits(n)| <= 10
  {
    assert Power10(5) == 10 * Power10(4) == 100000;
    assert Power10(10) == 10 * Power10(9) == 10_000_000_000;
    DigitsShort(n, 10);
  }

  lemma StringCarried(ver: Version, name: text, value: text)
    requires |name| <= 16 && |value| <= NAME_LIMIT
    ensures Carries(ver, StringElement(name, value))
  {
  }

  lemma {:induction false} NumberedCarried(ver: Version, names: seq<text>, i: nat)
    requires i + |names| < 0xFFFF_FFFF && forall t | t in names :: |t| <= NAME_LIMIT
    ensures forall e | e in Numbered(names, i) :: Carries(ver, e)
  {
    hide Carries, StringElement, Digits;
    if names != [] {
      NumberShort(i);
      StringCarried(ver, Digits(i), names[0]);
      NumberedCarried(ver, names[1..], i + 1);
    }
  }

  /** The server's reply fits the format in both versions. */
  lemma ReplyCarried(ver: Version, h: EntryHeader, objectType: text, implements: text)
    requires |implements| < 0xFFFF_FFFF && EntryFits(ver, h)
    requires |objectType| <= NAME_LIMIT && forall t | t in Tokens(implements) :: |t| <= NAME_LIMIT
    ensures CarriesEntry(ver, Entry(h, Reply(objectType, implements)))
  {
    ReplyNames(objectType, implements);
    StringCarried(ver, OBJECT_TYPE, objectType);
    if |implements| > 0 {
      ListElement(objectType, implements);
      NumberedCarried(ver, Tokens(implements), 0);
      hide Numbered, Tokens, Reply, StringElement;
      assert Carries(ver, Reply(objectType, implements)[1]);
    }
    hide Carries, Reply, StringElement, EntryFits;
  }

  /** End to end: a reply that the server could write at all is read by the client's check as
      what the server meant, whatever stands behind it. */
  lemma WrittenReplyAgrees(ver: Version, mask: byte, mh: MessageHeader, h: EntryHeader, objectType: text,
          implements: text,
          expected: text, s: seq<byte>, n: nat)
    requires |implements| < 0xFFFF_FFFF && EntryFits(ver, h)
    requires |objectType| <= NAME_LIMIT && forall t | t in Tokens(implements) :: |t| <= NAME_LIMIT
    requires MessageAccepted(ver, mask, Message(mh, [Entry(h, Reply(objectType, implements))]), U32_MAX)
    requires var e := EncodeMessage(ver, mask, Message(mh, [Entry(h, Reply(objectType, implements))]));
             At(s, 0, e) && |e| <= n <= |s|
    ensures BeginEntries(s, n, ver).Ok?
    ensures Verify(s, BeginEntries(s, n, ver).value, expected) == Ok(Agrees(objectType, implements, expected))
  {
    hide At, EncodeMessage, Reply, Tokens, EntryFits, Carries, MessageAccepted, ReadsEntry, CheckMessage,
         MessageMatches, ParseMessage, BeginEntries, Visible, Verify, Agrees, CarriesEntry;
    var m := Message(mh, [Entry(h, Reply(objectType, implements))]);
    ReplyCarried(ver, h, objectType, implements);
    MessageRoundTrip(ver, mask, m, s, n);
    TypesAgree(s, BeginEntries(s, n, ver).value, h, objectType, implements, expected);
  }

  /** On any bytes: what stops a search or the walk over the list is what the check fails with; only a list
      that is not there, has come to its end or cannot be entered is no failure. */
  lemma FailuresPassOn(s: seq<byte>, c: EntryCursor, n: ElementCursor, name: text, expected: text)
    ensures BeginElements(s, c).Err? && BeginElements(s, c).status != NoMore
        ==> FindInEntry(s, c, name).Err? && FindInEntry(s, c, name).status == BeginElements(s, c).status
    ensures BeginElements(s, c).Ok? ==>
              var (status, d) := FindFrom(s, BeginElements(s, c).value, name);
              FindInEntry(s, c, name) == if status == Success then Ok(d) else Err(status)
    ensures var read, next, found := ReadName(s, n), ElementNext(s, n), AnyExpected(s, n, expected);
            && (read.Err? ==> found.Err? && found.status == read.status)
            && (read.Ok? && read.value !in Tokens(expected) && next.Err? ==>
                  found == if n.current + 1 >= n.total then Ok(false) else Err(next.status))
    ensures var t, l := FindInEntry(s, c, OBJECT_TYPE), FindInEntry(s, c, OBJECT_IMPLEMENTS);
            && (t.Err? ==> Verify(s, c, expected).Err? && Verify(s, c, expected).status == t.status)
            && (t.Ok? && l.Err? && l.status != ElementNotFound ==>
                  || Verify(s, c, expected) == Ok(true)
                  || (Verify(s, c, expected).Err? && TypeFails(s, t.value, Verify(s, c, expected).status))
                  || Verify(s, c, expected) == Err(l.status))
  {
    ElementNextOutcome(s, n);
    hide ParseElement, ReadData, SizeSub, FindFrom, BeginElements, ElementNext, Tokens;
  }

  /** The element is not a string that can be read, and this is why. */
  predicate TypeFails(s: seq<byte>, e: ElementCursor, why: Status) {
    var h := ParseElement(e.ver, s, e.off);
    if h.Err? then why == h.status
    else if h.value.elementType != STRING_TYPE then why == TypeMismatch
    else if h.value.dataCount > NAME_LIMIT then why == OutOfRange
    else ReadName(s, e).Err? && why == ReadName(s, e).status
  }

  /** What the handshake makes of the reply: without an expectation every type is accepted. */
  function TypeAccepted(s: seq<byte>, c: EntryCursor, expected: text): bool {
    expected == [] || Verify(s, c, expected) == Ok(true)
  }

  /** The handshake of a client that judges the answer to its type request by that reply: when no type or
      this one is expected, no proper run fails, and one that makes all six steps completes; otherwise
      none completes, and one fails exactly when it gets the reply. */
  lemma HandshakeAgrees(states: seq<Handshake.Client>, calls: seq<(Handshake.Notice, Handshake.Around)>, s: seq<byte>,
          c: EntryCursor, h: EntryHeader, objectType: text, implements: text, expected: text)
    requires |implements| < 0xFFFF_FFFF && ReadsEntry(s, c, Entry(h, Reply(objectType, implements)))
    requires |objectType| <= NAME_LIMIT && forall t | t in Tokens(implements) :: |t| <= NAME_LIMIT
    requires Handshake.ProperRun(states, calls)
    requires forall i | 0 < i < |calls| && Handshake.TypeTaken(states[i], calls[i].0, calls[i].1) ::
               calls[i].0.typeAccepted == TypeAccepted(s, c, expected)
    ensures var d := states[|calls|];
            if expected == [] || Agrees(objectType, implements, expected) then
              && d.phase != Handshake.Failed && d.closes == states[0].closes
              && (d.phase == Handshake.Completed <==> Handshake.Made(states, calls, |calls|) == 6)
            else
              && d.phase != Handshake.Completed
              && (d.phase == Handshake.Failed <==>
                    exists i | 0 < i < |calls| :: Handshake.TypeTaken(states[i], calls[i].0, calls[i].1))
  {
    hide Verify, Reply, ReadsEntry, Tokens, Agrees, Handshake.Rejects, Handshake.Made,
         Handshake.ProperRun, Handshake.Progress;
    TypesAgree(s, c, h, objectType, implements, expected);
    Handshake.ProperRunCompletes(states, calls);
    Handshake.RunHasCalls(states, calls);
    Handshake.ProperRunProceeds(states, calls, |calls|);
    Handshake.CompletedAt(states[|calls|].phase);
    forall i | 0 < i < |calls|
      ensures Handshake.Rejects(states[i], calls[i].0, calls[i].1)
         <==> Handshake.TypeTaken(states[i], calls[i].0, calls[i].1) && !calls[i].0.typeAccepted {
      Handshake.TakenWhenAccepted(states[i], calls[i].0, calls[i].1);
    }
  }

  /** The loop over the implemented types. */
  method VerifyList(nested: ElementReader, expected: text) returns (r: Result<bool>)
    modifies nested
    ensures nested.buf == old(nested.buf)
    ensures r == AnyExpected(old(nested.buf[..]), old(nested.Cursor()), expected)
  {
    hide ReadName, ElementNext, Tokens;
    ghost var c0, s := nested.Cursor(), nested.buf[..];
    while true
      invariant nested.buf == old(nested.buf)
      invariant AnyExpected(s, nested.Cursor(), expected) == AnyExpected(s, c0, expected)
      decreases if nested.current < nested.total then nested.total - nested.current else 0
    {
      var name := ReadName(nested.buf[..], nested.Cursor());
      if name.Err? {
        return Err(name.status);
      }
      var found := MatchStringInList(expected, name.value);
      if found {
        return Ok(true);
      }
      NextProgress(s, nested.Cursor());
      var rv := nested.MoveNext();
      if rv != Success {
        if rv == NoMore {
          return Ok(false);
        }
        return Err(rv);
      }
    }
  }

  /** verify_objecttype_response over the readers. */
  method VerifyObjectType(entry: EntryReader, expected: text) returns (r: Result<bool>)
    ensures r == Verify(entry.buf[..], entry.Cursor(), expected)
  {
    hide FindFrom, BeginElements, BeginNested, ParseElement, ReadData, ElementNext, AnyExpected, Tokens;
    var s := entry.buf[..];
    var element := new ElementReader(entry.buf);
    var rv := entry.FindElement(OBJECT_TYPE, element);
    if rv != Success {
      return Err(rv);
    }
    var header := ParseElement(element.ver, s, element.offset);
    if header.Err? {
      return Err(header.status);
    }
    if header.value.elementType != STRING_TYPE {
      return Err(TypeMismatch);
    }
    if header.value.dataCount > NAME_LIMIT {
      return Err(OutOfRange);
    }
    var name := ReadName(s, element.Cursor());
    if name.Err? {
      return Err(name.status);
    }
    var found := MatchStringInList(expected, name.value);
    if found {
      return Ok(true);
    }
    rv := entry.FindElement(OBJECT_IMPLEMENTS, element);
    if rv != Success {
      if rv == ElementNotFound {
        return Ok(false);
      }
      return Err(rv);
    }
    var nested := new ElementReader(entry.buf);
    rv := element.BeginReadNestedElements(nested);
    if rv != Success {
      return Ok(false);
    }
    r := VerifyList(nested, expected);
  }
}
