/** Finding the service of a path (node.c) with the hash and comparison of array.c. */
module Lookup {
  import opened Base

  const DOT: byte := 46

  /** string_cmp: shorter strings come first, equal lengths compare byte by byte. */
  function StringCmp(a: text, b: text): int {
    if |a| == 0 && |b| == 0 then 0
    else if |a| < |b| then -1
    else if |a| > |b| then 1
    else Memcmp(a, b)
  }

  function Memcmp(a: seq<byte>, b: seq<byte>): int
    requires |a| == |b|
  {
    if a == [] then 0 else if a[0] != b[0] then a[0] as int - b[0] as int else Memcmp(a[1..], b[1..])
  }

  lemma {:induction false} MemcmpZero(a: seq<byte>, b: seq<byte>)
    requires |a| == |b|
    ensures Memcmp(a, b) == 0 <==> a == b
  {
    if a != [] {
      MemcmpZero(a[1..], b[1..]);
      assert a == [a[0]] + a[1..] && b == [b[0]] + b[1..];
    }
  }

  lemma StringCmpZero(a: text, b: text)
    ensures StringCmp(a, b) == 0 <==> a == b
  {
    if |a| == |b| {
      MemcmpZero(a, b);
    }
  }

  /** The comparison orders strings by length and then by the first byte that differs. */
  lemma {:induction false} MemcmpFirstDifference(a: seq<byte>, b: seq<byte>, k: nat)
    requires |a| == |b| && k < |a| && a[..k] == b[..k] && a[k] != b[k]
    ensures Memcmp(a, b) == a[k] as int - b[k] as int
    decreases k
  {
    if k > 0 {
      assert a[0] == a[..k][0] == b[..k][0] == b[0];
      assert a[1..][..k - 1] == a[..k][1..] && b[1..][..k - 1] == b[..k][1..];
      MemcmpFirstDifference(a[1..], b[1..], k - 1);
    }
  }

  lemma StringCmpOrders(a: text, b: text, k: nat)
    ensures |a| != |b| ==> (StringCmp(a, b) < 0 <==> |a| < |b|)
    ensures |a| == |b| && k < |a| && a[..k] == b[..k] && a[k] != b[k] ==> (StringCmp(a, b) < 0 <==> a[k] < b[k])
  {
    if |a| == |b| && k < |a| && a[..k] == b[..k] && a[k] != b[k] {
      MemcmpFirstDifference(a, b, k);
    }
  }

  /** string_hash: length, first byte and the exclusive or of the last two, in separate bits. */
  function StringHash(s: text): u32 {
    var n := |s| % 0x1_0000;
    if |s| == 0 then 0
    else if |s| == 1 then n + s[0] as nat * 0x100_0000
    else if |s| == 2 then n + s[0] as nat * 0x100_0000 + s[1] as nat * 0x1_0000
    else n + s[0] as nat * 0x100_0000 + Xor(s[|s| - 1], s[|s| - 2]) as nat * 0x1_0000
  }

  lemma Parts(low: nat, middle: nat, high: nat)
    requires low < 0x1_0000 && middle < 0x100
    ensures var v := low + high * 0x100_0000 + middle * 0x1_0000;
            v % 0x1_0000 == low && v / 0x1_0000 % 0x100 == middle && v / 0x100_0000 == high
  {
    var v, w := low + high * 0x100_0000 + middle * 0x1_0000, middle + 0x100 * high;
    assert v == low + 0x1_0000 * w;
    assert v / 0x1_0000 == w;
  }

  /** The parts of a hash: the length in the low half, above it the last two bytes, on top the first. */
  lemma HashParts(s: text)
    ensures StringHash(s) % 0x1_0000 == |s| % 0x1_0000
    ensures StringHash(s) / 0x100_0000 == if s == [] then 0 else s[0] as nat
    ensures StringHash(s) / 0x1_0000 % 0x100
         == if |s| < 2 then 0 else if |s| == 2 then s[1] as nat else Xor(s[|s| - 1], s[|s| - 2]) as nat
  {
    hide Xor;
    var n := |s| % 0x1_0000;
    if |s| == 1 {
      Parts(n, 0, s[0] as nat);
    } else if |s| == 2 {
      Parts(n, s[1] as nat, s[0] as nat);
    } else if |s| > 2 {
      Parts(n, Xor(s[|s| - 1], s[|s| - 2]) as nat, s[0] as nat);
    }
  }

  /** The prefix is the whole path, or the path goes on with a dot right behind it. */
  predicate IsServicePathPrefix(prefix: text, path: text) {
    if |path| < |prefix| then false
    else if |path| == |prefix| then Memcmp(path, prefix) == 0
    else Memcmp(path[..|prefix|], prefix) == 0 && path[|prefix|] == DOT
  }

  /** The first dot after the first character, or the end. */
  function ServiceEnd(path: text, from: nat): (r: nat)
    requires 0 < |path| && from <= |path|
    ensures from <= r <= |path|
    ensures forall k | from <= k < r :: path[k] != DOT
    ensures r < |path| ==> path[r] == DOT
    decreases |path| - from
  {
    if from < |path| && path[from] != DOT then ServiceEnd(path, from + 1) else from
  }

  predicate NoLaterDot(name: text) {
    forall k | 1 <= k < |name| :: name[k] != DOT
  }

  datatype Service = Service(name: text, hash: u32)

  /** Every registered service carries the hash of its name. */
  predicate Registered(s: Service) {
    s.hash == StringHash(s.name)
  }

  /** What the search accepts for one service. */
  predicate Accepts(s: Service, path: text)
    requires |path| > 0
  {
    s.name == path[..ServiceEnd(path, 1)]
  }

  function FirstAccepted(services: seq<Service>, path: text, i: nat): Option<nat>
    requires |path| > 0 && i <= |services|
    decreases |services| - i
  {
    if i == |services| then None else if Accepts(services[i], path) then Some(i)
        else FirstAccepted(services, path, i + 1)
  }

  /** find_service_for_path: scan for the first dot, then compare hash and name. */
  method FindServiceForPath(services: seq<Service>, path: text) returns (found: Option<nat>)
    requires forall s | s in services :: Registered(s)
    ensures path == [] ==> found == None
    ensures path != [] ==> found == FirstAccepted(services, path, 0)
  {
    hide StringHash, StringCmp;
    if |path| == 0 {
      return None;
    }
    var l := 1;
    while l < |path|
      invariant 1 <= l <= |path| && ServiceEnd(path, l) == ServiceEnd(path, 1)
    {
      if path[l] == DOT {
        break;
      }
      l := l + 1;
    }
    var prefix: text := if l < |path| then path[..l] else path;
    assert prefix == path[..ServiceEnd(path, 1)];
    var hash := StringHash(prefix);
    var i := 0;
    while i < |services|
      invariant i <= |services| && FirstAccepted(services, path, 0) == FirstAccepted(services, path, i)
    {
      assert services[i] in services;
      StringCmpZero(services[i].name, prefix);
      if services[i].hash == hash && StringCmp(services[i].name, prefix) == 0 {
        return Some(i);
      }
      i := i + 1;
    }
    return None;
  }

  /** The prefix test, said plainly. */
  lemma PrefixMeans(prefix: text, path: text)
    ensures IsServicePathPrefix(prefix, path)
        <==> path == prefix || (|prefix| < |path| && path[..|prefix|] == prefix && path[|prefix|] == DOT)
  {
    if |path| == |prefix| {
      MemcmpZero(path, prefix);
    } else if |path| > |prefix| {
      MemcmpZero(path[..|prefix|], prefix);
    }
  }

  /** The exact relation between the search and the prefix test: for a non-empty name they
      agree precisely when the name has no dot after its first character. */
  lemma AcceptsIff(s: Service, path: text)
    requires |path| > 0 && |s.name| > 0
    ensures Accepts(s, path) <==> IsServicePathPrefix(s.name, path) && NoLaterDot(s.name)
  {
    PrefixMeans(s.name, path);
    var l := ServiceEnd(path, 1);
    assert path[..|path|] == path;
    if IsServicePathPrefix(s.name, path) && NoLaterDot(s.name) {
      var n := |s.name|;
      assert path[..n] == s.name;
    }
  }

  /** A failing input: a service named a.b is a prefix of the path a.b.c and is not found for it. */
  lemma DottedNameMissed()
    ensures var s := Service([97, DOT, 98], StringHash([97, DOT, 98]));
            var path := [97, DOT, 98, DOT, 99];
            Registered(s) && IsServicePathPrefix(s.name, path) && FirstAccepted([s], path, 0) == None
  {
    hide StringHash;
    var s, path: text := Service([97, DOT, 98], StringHash([97, DOT, 98])), [97, DOT, 98, DOT, 99];
    PrefixMeans(s.name, path);
    assert s.name[1] == DOT;
    AcceptsIff(s, path);
    assert FirstAccepted([s], path, 1) == None;
  }

  /** So the search returns the first service whose name is a path prefix, for every list of
      names without later dots; and the hash never hides one. */
  lemma FindsFirstPrefix(services: seq<Service>, path: text, i: nat)
    requires |path| > 0 && i <= |services|
    requires forall s | s in services :: |s.name| > 0 && NoLaterDot(s.name)
    ensures match FirstAccepted(services, path, i)
            case None => forall k | i <= k < |services| :: !IsServicePathPrefix(services[k].name, path)
            case Some(j) =>
              && i <= j < |services| && IsServicePathPrefix(services[j].name, path)
              && forall k | i <= k < j :: !IsServicePathPrefix(services[k].name, path)
    decreases |services| - i
  {
    hide IsServicePathPrefix, Accepts, NoLaterDot;
    if i < |services| {
      assert services[i] in services;
      AcceptsIff(services[i], path);
      FindsFirstPrefix(services, path, i + 1);
    }
  }
}
