/** Proxy lists in JSON: values picked out by dotted paths, then paired by position. */
module JsonSource {
  import opened Proxies
  import TextSource

  /** Decoded JSON. A number is kept as the text it prints as. */
  datatype Json =
    | Null
    | Bool(value: bool)
    | Number(text: string)
    | String(text: string)
    | Array(items: seq<Json>)
    | Object(fields: map<string, Json>)

  datatype Source = Source(name: string, protocol: string, ipField: string, portField: string, protocolField: string)

  /** The text of a value; `printed` is the default formatting, used for everything but text, numbers and null. */
  function ToText(v: Json, printed: Json -> string): (r: string) {
    match v
    case String(text) => text
    case Number(text) => text
    case Null => ""
    case _ => printed(v)
  }

  // ---- paths ----

  /** One step of a path from one value: into an array's items or an object's field. */
  function Descend(item: Json, part: string): (r: seq<Json>) {
    if part == "*" then (if item.Array? then item.items else [])
    else if item.Object? && part in item.fields then [item.fields[part]]
    else []
  }

  function Level(current: seq<Json>, part: string): (r: seq<Json>) {
    if current == [] then [] else Level(current[..|current| - 1], part) + Descend(current[|current| - 1], part)
  }

  /** Level by level over all values at once, the way the source extracts. */
  function ExtractLevels(current: seq<Json>, parts: seq<string>): (r: seq<Json>)
    decreases |parts|
  {
    if parts == [] then current else ExtractLevels(Level(current, parts[0]), parts[1..])
  }

  function ExtractFieldPath(data: Json, path: string): (r: seq<Json>) {
    if path == "" then [] else ExtractLevels([data], TextSource.Split(path, '.'))
  }

  /** The values a path reaches from one value. */
  function Extract(item: Json, parts: seq<string>): (r: seq<Json>)
    decreases |parts|, 0
  {
    if parts == [] then [item] else ExtractEach(Descend(item, parts[0]), parts[1..])
  }

  /** The values a path reaches from each value, one value after the other. */
  function ExtractEach(items: seq<Json>, parts: seq<string>): (r: seq<Json>)
    decreases |parts|, |items| + 1
  {
    if items == [] then [] else ExtractEach(items[..|items| - 1], parts) + Extract(items[|items| - 1], parts)
  }

  method ExtractRecursive(current: seq<Json>, parts: seq<string>) returns (values: seq<Json>)
    ensures values == ExtractLevels(current, parts)
    decreases |parts|
  {
    if |parts| == 0 {
      return current;
    }
    var part := parts[0];
    var next := [];
    for i := 0 to |current|
      invariant next == Level(current[..i], part)
    {
      assert current[..i + 1][..i] == current[..i];
      var item := current[i];
      if part == "*" {
        if item.Array? {
          next := next + item.items;
        }
      } else if item.Object? {
        if part in item.fields {
          next := next + [item.fields[part]];
        }
      }
    }
    assert current[..|current|] == current;
    values := ExtractRecursive(next, parts[1..]);
  }

  lemma {:induction false} EachOfBoth(a: seq<Json>, b: seq<Json>, parts: seq<string>)
    ensures ExtractEach(a + b, parts) == ExtractEach(a, parts) + ExtractEach(b, parts)
    decreases |b|
  {
    hide Extract;
    if b == [] {
      assert a + b == a;
    } else {
      assert (a + b)[..|a + b| - 1] == a + b[..|b| - 1];
      EachOfBoth(a, b[..|b| - 1], parts);
    }
  }

  /** Taking one level at once and then each value is taking each value. */
  lemma {:induction false} LevelThenEach(current: seq<Json>, parts: seq<string>)
    requires parts != []
    ensures ExtractEach(Level(current, parts[0]), parts[1..]) == ExtractEach(current, parts)
    decreases |current|
  {
    hide Descend;
    if current != [] {
      var before, last := current[..|current| - 1], current[|current| - 1];
      LevelThenEach(before, parts);
      EachOfBoth(Level(before, parts[0]), Descend(last, parts[0]), parts[1..]);
    }
  }

  /** Extracting level by level gives, in order, what extracting from each value in turn gives. */
  lemma {:induction false} LevelsAreEach(current: seq<Json>, parts: seq<string>)
    ensures ExtractLevels(current, parts) == ExtractEach(current, parts)
    decreases |parts|
  {
    if parts == [] {
      EachOfNothing(current);
    } else {
      LevelsAreEach(Level(current, parts[0]), parts[1..]);
      LevelThenEach(current, parts);
    }
  }

  lemma {:induction false} EachOfNothing(items: seq<Json>)
    ensures ExtractEach(items, []) == items
  {
    if items != [] {
      EachOfNothing(items[..|items| - 1]);
    }
  }

  lemma {:induction false} PathInTwoParts(current: seq<Json>, first: seq<string>, rest: seq<string>)
    ensures ExtractLevels(current, first + rest) == ExtractLevels(ExtractLevels(current, first), rest)
    decreases |first|
  {
    hide Level;
    if first == [] {
      assert first + rest == rest;
    } else {
      assert (first + rest)[1..] == first[1..] + rest;
      PathInTwoParts(Level(current, first[0]), first[1..], rest);
    }
  }

  // ---- rows ----

  /** The endpoint at one position of the extracted lists, if its address and port have text. */
  function Row(ip: Json, port: Json, protocol: Option<Json>, src: Source, printed: Json -> string): (r: Option<Proxy>) {
    var own := if protocol.Some? then ToText(protocol.value, printed) else "";
    if ToText(ip, printed) == "" || ToText(port, printed) == "" then None
    else Some(TextSource.Listed(ToText(ip, printed), ToText(port, printed), if own != "" then own else src.protocol, src.name))
  }

  function OptionAt(values: seq<Json>, i: nat): (r: Option<Json>) {
    if i < |values| then Some(values[i]) else None
  }

  function Rows(ips: seq<Json>, ports: seq<Json>, protocols: seq<Json>, src: Source, printed: Json -> string, n: nat): (r: seq<Proxy>)
    requires n <= |ips| && n <= |ports|
  {
    if n == 0 then []
    else
      var last := Row(ips[n - 1], ports[n - 1], OptionAt(protocols, n - 1), src, printed);
      Rows(ips, ports, protocols, src, printed, n - 1) + (if last.Some? then [last.value] else [])
  }

  function Shorter(a: seq<Json>, b: seq<Json>): (r: nat) {
    if |b| < |a| then |b| else |a|
  }

  /** A response that does not decode is an error; otherwise as many rows as there are both addresses and ports. */
  method ParseJSONResponse(decoded: Option<Json>, src: Source, printed: Json -> string) returns (proxies: Option<seq<Proxy>>)
    ensures decoded.None? <==> proxies.None?
    ensures decoded.Some? ==>
      var ips, ports := ExtractFieldPath(decoded.value, src.ipField), ExtractFieldPath(decoded.value, src.portField);
      proxies.value == Rows(ips, ports, ExtractFieldPath(decoded.value, src.protocolField), src, printed, Shorter(ips, ports))
  {
    hide ExtractFieldPath;
    if decoded.None? {
      return None;
    }
    var ipValues := ExtractFieldPath(decoded.value, src.ipField);
    var portValues := ExtractFieldPath(decoded.value, src.portField);
    var protocolValues := ExtractFieldPath(decoded.value, src.protocolField);
    var count := |ipValues|;
    if |portValues| < count {
      count := |portValues|;
    }
    var list := [];
    for i := 0 to count
      invariant list == Rows(ipValues, portValues, protocolValues, src, printed, i)
    {
      var ip := ToText(ipValues[i], printed);
      var port := ToText(portValues[i], printed);
      var protocol := src.protocol;
      if i < |protocolValues| {
        var p := ToText(protocolValues[i], printed);
        if p != "" {
          protocol := p;
        }
      }
      if ip == "" || port == "" {
        continue;
      }
      list := list + [TextSource.Listed(ip, port, protocol, src.name)];
    }
    proxies := Some(list);
  }

  // ---- pairing ----

  /** Every element yields exactly one value for the suffix. */
  ghost predicate OneEach(elements: seq<Json>, suffix: seq<string>) {
    forall i :: 0 <= i < |elements| ==> |Extract(elements[i], suffix)| == 1
  }

  lemma {:induction false} EachOfSingles(elements: seq<Json>, suffix: seq<string>)
    requires OneEach(elements, suffix)
    ensures |ExtractEach(elements, suffix)| == |elements|
    ensures forall i :: 0 <= i < |elements| ==> ExtractEach(elements, suffix)[i] == Extract(elements[i], suffix)[0]
  {
    hide Extract;
    if elements != [] {
      var before := elements[..|elements| - 1];
      EachOfSingles(before, suffix);
      forall i | 0 <= i < |elements| ensures ExtractEach(elements, suffix)[i] == Extract(elements[i], suffix)[0] {
        if i < |before| { assert before[i] == elements[i]; }
      }
    }
  }

  /** The values of a path under a shared prefix are those of the elements, in order. */
  lemma PathOverElements(data: Json, path: string, prefix: seq<string>, suffix: seq<string>)
    requires path != "" && TextSource.Split(path, '.') == prefix + suffix
    requires OneEach(ExtractLevels([data], prefix), suffix)
    ensures var elements, values := ExtractLevels([data], prefix), ExtractFieldPath(data, path);
      |values| == |elements| && forall i :: 0 <= i < |elements| ==> values[i] == Extract(elements[i], suffix)[0]
  {
    hide Extract, OneEach, ExtractLevels;
    var elements := ExtractLevels([data], prefix);
    PathInTwoParts([data], prefix, suffix);
    LevelsAreEach(elements, suffix);
    EachOfSingles(elements, suffix);
  }

  /** The endpoint one element describes. */
  function RowOf(element: Json, ip: seq<string>, port: seq<string>, protocol: Option<seq<string>>,
                 src: Source, printed: Json -> string): (r: Option<Proxy>)
    requires |Extract(element, ip)| == 1 && |Extract(element, port)| == 1
    requires protocol.Some? ==> |Extract(element, protocol.value)| == 1
  {
    Row(Extract(element, ip)[0], Extract(element, port)[0],
        if protocol.Some? then Some(Extract(element, protocol.value)[0]) else None, src, printed)
  }

  ghost predicate AllSingle(elements: seq<Json>, ip: seq<string>, port: seq<string>, protocol: Option<seq<string>>) {
    OneEach(elements, ip) && OneEach(elements, port) && (protocol.Some? ==> OneEach(elements, protocol.value))
  }

  function RowsOf(elements: seq<Json>, ip: seq<string>, port: seq<string>, protocol: Option<seq<string>>,
                  src: Source, printed: Json -> string): (r: seq<Proxy>)
    requires AllSingle(elements, ip, port, protocol)
  {
    if elements == [] then []
    else
      var last := RowOf(elements[|elements| - 1], ip, port, protocol, src, printed);
      RowsOf(elements[..|elements| - 1], ip, port, protocol, src, printed) + (if last.Some? then [last.value] else [])
  }

  lemma {:induction false} RowsPair(elements: seq<Json>, ip: seq<string>, port: seq<string>, protocol: Option<seq<string>>,
                                    src: Source, printed: Json -> string,
                                    ips: seq<Json>, ports: seq<Json>, protocols: seq<Json>, n: nat)
    requires AllSingle(elements, ip, port, protocol) && n <= |elements| == |ips| == |ports|
    requires forall i :: 0 <= i < |elements| ==> ips[i] == Extract(elements[i], ip)[0]
    requires forall i :: 0 <= i < |elements| ==> ports[i] == Extract(elements[i], port)[0]
    requires protocol.None? ==> protocols == []
    requires protocol.Some? ==> |protocols| == |elements|
    requires protocol.Some? ==> forall i :: 0 <= i < |elements| ==> protocols[i] == Extract(elements[i], protocol.value)[0]
    ensures Rows(ips, ports, protocols, src, printed, n) == RowsOf(elements[..n], ip, port, protocol, src, printed)
  {
    hide Extract, Row;
    if n > 0 {
      RowsPair(elements, ip, port, protocol, src, printed, ips, ports, protocols, n - 1);
      assert elements[..n][..n - 1] == elements[..n - 1];
      assert elements[..n][n - 1] == elements[n - 1];
    }
  }

  /** Paths with a shared beginning (usually up to the "*" over an array), each giving one value for every
      element reached there: every row holds the address, the port and the protocol of the same element, in
      the elements' order. */
  lemma RowsComeFromElements(data: Json, src: Source, printed: Json -> string, shared: seq<string>,
                             ip: seq<string>, port: seq<string>, protocol: Option<seq<string>>)
    requires src.ipField != "" && TextSource.Split(src.ipField, '.') == shared + ip
    requires src.portField != "" && TextSource.Split(src.portField, '.') == shared + port
    requires protocol.None? ==> src.protocolField == ""
    requires protocol.Some? ==> src.protocolField != "" && TextSource.Split(src.protocolField, '.') == shared + protocol.value
    requires AllSingle(ExtractLevels([data], shared), ip, port, protocol)
    ensures var ips, ports := ExtractFieldPath(data, src.ipField), ExtractFieldPath(data, src.portField);
      Rows(ips, ports, ExtractFieldPath(data, src.protocolField), src, printed, Shorter(ips, ports))
        == RowsOf(ExtractLevels([data], shared), ip, port, protocol, src, printed)
  {
    hide Extract, ExtractLevels, OneEach;
    var elements := ExtractLevels([data], shared);
    PathOverElements(data, src.ipField, shared, ip);
    PathOverElements(data, src.portField, shared, port);
    if protocol.Some? { PathOverElements(data, src.protocolField, shared, protocol.value); }
    assert elements[..|elements|] == elements;
    RowsPair(elements, ip, port, protocol, src, printed, ExtractFieldPath(data, src.ipField),
             ExtractFieldPath(data, src.portField), ExtractFieldPath(data, src.protocolField), |elements|);
  }

  // ---- when positions pair up ----

  /** How many values each element yields. */
  function Counts(elements: seq<Json>, suffix: seq<string>): (counts: seq<nat>)
    ensures |counts| == |elements|
  {
    if elements == [] then [] else [|Extract(elements[0], suffix)|] + Counts(elements[1..], suffix)
  }

  function Sum(counts: seq<nat>): (r: nat) {
    if counts == [] then 0 else counts[0] + Sum(counts[1..])
  }

  /** The element each position of the extracted list belongs to, numbering the elements from `base`. */
  function Owners(counts: seq<nat>, base: nat): (r: seq<nat>) {
    if counts == [] then [] else seq(counts[0], _ => base) + Owners(counts[1..], base + 1)
  }

  lemma {:induction false} OwnersInOrder(counts: seq<nat>, base: nat)
    ensures |Owners(counts, base)| == Sum(counts)
    ensures forall k :: 0 <= k < |Owners(counts, base)| ==> base <= Owners(counts, base)[k] < base + |counts|
  {
    if counts != [] {
      OwnersInOrder(counts[1..], base + 1);
    }
  }

  lemma EachFromFront(elements: seq<Json>, suffix: seq<string>)
    requires elements != []
    ensures ExtractEach(elements, suffix) == Extract(elements[0], suffix) + ExtractEach(elements[1..], suffix)
  {
    hide Extract;
    assert elements == [elements[0]] + elements[1..];
    EachOfBoth([elements[0]], elements[1..], suffix);
    assert [elements[0]][..0] == [];
    assert ExtractEach([elements[0]], suffix) == ExtractEach([], suffix) + Extract(elements[0], suffix);
  }

  /** Owners are owners: the value at a position is one its element yields, the one its place in the element says. */
  lemma {:induction false} OwnerYields(elements: seq<Json>, suffix: seq<string>, base: nat, k: nat)
    requires k < |ExtractEach(elements, suffix)|
    ensures var counts := Counts(elements, suffix);
      && |Owners(counts, base)| == |ExtractEach(elements, suffix)|
      && var i := Owners(counts, base)[k] - base;
         0 <= i < |elements| && 0 <= k - Sum(counts[..i]) < |Extract(elements[i], suffix)|
         && ExtractEach(elements, suffix)[k] == Extract(elements[i], suffix)[k - Sum(counts[..i])]
  {
    EachCounts(elements, suffix);
    hide Extract;
    var counts := Counts(elements, suffix);
    OwnersInOrder(counts, base);
    if elements != [] {
      EachFromFront(elements, suffix);
      if k >= counts[0] {
        OwnerYields(elements[1..], suffix, base + 1, k - counts[0]);
        var i := Owners(counts, base)[k] - base;
        assert counts[..i][1..] == counts[1..][..i - 1];
      }
    }
  }

  lemma {:induction false} EachCounts(elements: seq<Json>, suffix: seq<string>)
    ensures |ExtractEach(elements, suffix)| == Sum(Counts(elements, suffix))
  {
    hide Extract;
    if elements != [] {
      EachFromFront(elements, suffix);
      EachCounts(elements[1..], suffix);
    }
  }

  /** At each of the first n positions both lists have, the two values are of the same element. */
  ghost predicate SameOwners(a: seq<nat>, b: seq<nat>, base: nat, n: nat) {
    forall k :: 0 <= k < n && k < |Owners(a, base)| && k < |Owners(b, base)| ==> Owners(a, base)[k] == Owners(b, base)[k]
  }

  /** The first element that yields different numbers of the two. */
  function FirstDifference(a: seq<nat>, b: seq<nat>): (i: nat)
    requires |a| == |b|
    ensures i <= |a| && a[..i] == b[..i]
    ensures i < |a| ==> a[i] != b[i]
  {
    if a == [] || a[0] != b[0] then 0
    else
      var rest := FirstDifference(a[1..], b[1..]);
      assert a[..rest + 1] == [a[0]] + a[1..][..rest] && b[..rest + 1] == [b[0]] + b[1..][..rest];
      rest + 1
  }

  /** All elements yield as many of the one as of the other, or from the first that does not on there are no
      more values of the kind it yields fewer of. */
  predicate PairsUp(a: seq<nat>, b: seq<nat>)
    requires |a| == |b|
  {
    var i := FirstDifference(a, b);
    i < |a| ==> Sum(if a[i] < b[i] then a[i + 1..] else b[i + 1..]) == 0
  }

  /** Where the values of that element run out. */
  function FirstGap(a: seq<nat>, b: seq<nat>): (k: nat)
    requires |a| == |b|
  {
    var i := FirstDifference(a, b);
    Sum(a[..i]) + if i == |a| then 0 else if a[i] < b[i] then a[i] else b[i]
  }

  lemma {:induction false} PairingExactlyWhen(a: seq<nat>, b: seq<nat>, base: nat, n: nat)
    requires |a| == |b|
    ensures SameOwners(a, b, base, n) <==> PairsUp(a, b) || n <= FirstGap(a, b)
  {
    if a != [] {
      OwnersInOrder(a[1..], base + 1);
      OwnersInOrder(b[1..], base + 1);
      if a[0] == b[0] {
        var left := if n > a[0] then n - a[0] else 0;
        PairingExactlyWhen(a[1..], b[1..], base + 1, left);
        SameOwnersAfterEqual(a, b, base, n, left);
        PairsUpAfterEqual(a, b);
      } else if a[0] < b[0] {
        OwnersAfterFewer(a, b, base, n);
      } else {
        OwnersAfterFewer(b, a, base, n);
      }
    }
  }

  lemma SameOwnersAfterEqual(a: seq<nat>, b: seq<nat>, base: nat, n: nat, left: nat)
    requires |a| == |b| && a != [] && a[0] == b[0] && left == if n > a[0] then n - a[0] else 0
    ensures SameOwners(a, b, base, n) <==> SameOwners(a[1..], b[1..], base + 1, left)
  {
    var p, q, m := Owners(a[1..], base + 1), Owners(b[1..], base + 1), a[0];
    assert Owners(a, base) == seq(m, _ => base) + p && Owners(b, base) == seq(m, _ => base) + q;
    hide Owners;
    assert forall k :: 0 <= k < |p| ==> Owners(a, base)[m + k] == p[k];
    assert forall k :: 0 <= k < |q| ==> Owners(b, base)[m + k] == q[k];
    if SameOwners(a, b, base, n) {
      forall k | 0 <= k < left && k < |p| && k < |q| ensures p[k] == q[k] {
        assert Owners(a, base)[m + k] == Owners(b, base)[m + k];
      }
    }
  }

  lemma PairsUpAfterEqual(a: seq<nat>, b: seq<nat>)
    requires |a| == |b| && a != [] && a[0] == b[0]
    ensures PairsUp(a, b) <==> PairsUp(a[1..], b[1..])
    ensures FirstGap(a, b) == a[0] + FirstGap(a[1..], b[1..])
  {
    var i := FirstDifference(a[1..], b[1..]);
    assert FirstDifference(a, b) == i + 1;
    assert a[..i + 1][1..] == a[1..][..i];
    if i < |a| - 1 {
      assert a[i + 2..] == a[1..][i + 1..] && b[i + 2..] == b[1..][i + 1..];
    }
  }

  /** The first element yields fewer of one kind: the next value of that kind, if any, is another element's. */
  lemma OwnersAfterFewer(a: seq<nat>, b: seq<nat>, base: nat, n: nat)
    requires |a| == |b| && a != [] && a[0] < b[0]
    ensures SameOwners(a, b, base, n) <==> Sum(a[1..]) == 0 || n <= a[0]
    ensures SameOwners(b, a, base, n) <==> Sum(a[1..]) == 0 || n <= a[0]
  {
    OwnersInOrder(a[1..], base + 1);
    var p, q := Owners(a[1..], base + 1), Owners(b[1..], base + 1);
    assert Owners(a, base) == seq(a[0], _ => base) + p && Owners(b, base) == seq(b[0], _ => base) + q;
    hide Owners, Sum;
    if |p| > 0 {
      assert Owners(a, base)[a[0]] == p[0] && Owners(b, base)[a[0]] == base;
    }
  }

  lemma {:induction false} SumInTwoParts(counts: seq<nat>, i: nat)
    requires i < |counts|
    ensures Sum(counts) == Sum(counts[..i]) + counts[i] + Sum(counts[i + 1..])
  {
    if i > 0 {
      SumInTwoParts(counts[1..], i - 1);
      assert counts[..i][1..] == counts[1..][..i - 1];
      assert counts[1..][i..] == counts[i + 1..];
    }
  }

  /** Values that do not pair up run out before either list does. */
  lemma GapIsInside(a: seq<nat>, b: seq<nat>)
    requires |a| == |b| && !PairsUp(a, b)
    ensures FirstGap(a, b) < Sum(a) && FirstGap(a, b) < Sum(b)
  {
    var i := FirstDifference(a, b);
    SumInTwoParts(a, i);
    SumInTwoParts(b, i);
  }

  lemma PathIsEach(data: Json, path: string, prefix: seq<string>, suffix: seq<string>)
    requires path != "" && TextSource.Split(path, '.') == prefix + suffix
    ensures ExtractFieldPath(data, path) == ExtractEach(ExtractLevels([data], prefix), suffix)
  {
    hide Extract, ExtractLevels, ExtractEach;
    PathInTwoParts([data], prefix, suffix);
    LevelsAreEach(ExtractLevels([data], prefix), suffix);
  }

  /** The values of two paths with a shared beginning, taken by position: the first n of both are of the same
      elements if and only if the numbers the elements yield pair up, or run out only from n on. */
  lemma PathsPairExactlyWhen(data: Json, path: string, other: string, shared: seq<string>, suffix: seq<string>, suffix': seq<string>, n: nat)
    requires path != "" && TextSource.Split(path, '.') == shared + suffix
    requires other != "" && TextSource.Split(other, '.') == shared + suffix'
    ensures var elements, values, others := ExtractLevels([data], shared), ExtractFieldPath(data, path), ExtractFieldPath(data, other);
      var a, b := Counts(elements, suffix), Counts(elements, suffix');
      && |Owners(a, 0)| == |values| == Sum(a) && |Owners(b, 0)| == |others| == Sum(b)
      && ((forall k :: 0 <= k < n && k < |values| && k < |others| ==> Owners(a, 0)[k] == Owners(b, 0)[k])
            <==> PairsUp(a, b) || n <= FirstGap(a, b))
  {
    var elements := ExtractLevels([data], shared);
    var a, b := Counts(elements, suffix), Counts(elements, suffix');
    hide ExtractLevels, ExtractEach, Extract, ExtractFieldPath, Owners, PairsUp, FirstGap, Counts;
    PathIsEach(data, path, shared, suffix);
    PathIsEach(data, other, shared, suffix');
    EachCounts(elements, suffix);
    EachCounts(elements, suffix');
    OwnersInOrder(a, 0);
    OwnersInOrder(b, 0);
    PairingExactlyWhen(a, b, 0, n);
  }

  /** For paths with a shared beginning over any data: at every row the address and the port come from the same
      element if and only if the numbers of values the elements yield pair up. */
  lemma RowsPairExactlyWhen(data: Json, src: Source, shared: seq<string>, ip: seq<string>, port: seq<string>)
    requires src.ipField != "" && TextSource.Split(src.ipField, '.') == shared + ip
    requires src.portField != "" && TextSource.Split(src.portField, '.') == shared + port
    ensures var elements, ips, ports := ExtractLevels([data], shared), ExtractFieldPath(data, src.ipField),
                                        ExtractFieldPath(data, src.portField);
      var a, b := Counts(elements, ip), Counts(elements, port);
      && |Owners(a, 0)| == |ips| && |Owners(b, 0)| == |ports|
      && ((forall k :: 0 <= k < Shorter(ips, ports) ==> Owners(a, 0)[k] == Owners(b, 0)[k]) <==> PairsUp(a, b))
  {
    var elements, ips, ports := ExtractLevels([data], shared), ExtractFieldPath(data, src.ipField), ExtractFieldPath(data, src.portField);
    hide ExtractLevels, Extract, ExtractFieldPath, Owners, PairsUp, FirstGap, Counts;
    PathsPairExactlyWhen(data, src.ipField, src.portField, shared, ip, port, Shorter(ips, ports));
    if !PairsUp(Counts(elements, ip), Counts(elements, port)) { GapIsInside(Counts(elements, ip), Counts(elements, port)); }
  }

  /** At every row that takes a protocol from the data, the address and the protocol come from the same element if and
      only if their numbers pair up, or the gap comes only after the last row. */
  lemma ProtocolsPairExactlyWhen(data: Json, src: Source, shared: seq<string>, ip: seq<string>, protocol: seq<string>)
    requires src.ipField != "" && TextSource.Split(src.ipField, '.') == shared + ip
    requires src.protocolField != "" && TextSource.Split(src.protocolField, '.') == shared + protocol
    ensures var elements, ips, protocols := ExtractLevels([data], shared), ExtractFieldPath(data, src.ipField),
                                            ExtractFieldPath(data, src.protocolField);
      var rows := Shorter(ips, ExtractFieldPath(data, src.portField));
      var a, c := Counts(elements, ip), Counts(elements, protocol);
      && |Owners(a, 0)| == |ips| && |Owners(c, 0)| == |protocols|
      && ((forall k :: 0 <= k < rows && k < |protocols| ==> Owners(a, 0)[k] == Owners(c, 0)[k])
            <==> PairsUp(a, c) || rows <= FirstGap(a, c))
  {
    var rows := Shorter(ExtractFieldPath(data, src.ipField), ExtractFieldPath(data, src.portField));
    hide ExtractLevels, Extract, ExtractFieldPath, Owners, PairsUp, FirstGap, Counts;
    PathsPairExactlyWhen(data, src.ipField, src.protocolField, shared, ip, protocol, rows);
  }

  /** One element without a port is enough to pair an address with the port of another element. */
  lemma MissingPortMisaligns(printed: Json -> string, source: string)
    ensures
      var first := Object(map["ip" := String("192.0.2.1")]);
      var second := Object(map["ip" := String("192.0.2.2"), "port" := Number("80")]);
      var ips, ports := ExtractLevels([Array([first, second])], ["*", "ip"]), ExtractLevels([Array([first, second])], ["*", "port"]);
      Rows(ips, ports, [], Source(source, "http", "*.ip", "*.port", ""), printed, Shorter(ips, ports))
        == [TextSource.Listed("192.0.2.1", "80", "http", source)]
  {
    var first := Object(map["ip" := String("192.0.2.1")]);
    var second := Object(map["ip" := String("192.0.2.2"), "port" := Number("80")]);
    TwoElements(first, second, "ip");
    TwoElements(first, second, "port");
    assert ExtractLevels([Array([first, second])], ["*", "ip"]) == [String("192.0.2.1"), String("192.0.2.2")];
    assert ExtractLevels([Array([first, second])], ["*", "port"]) == [Number("80")];
  }

  lemma TwoElements(first: Json, second: Json, field: string)
    ensures ExtractLevels([Array([first, second])], ["*", field]) == Descend(first, field) + Descend(second, field)
  {
    var elements := [first, second];
    LevelOfOne(Array(elements), "*");
    LevelOfOne(first, field);
    assert elements[..1] == [first];
    assert Level(elements, field) == Level([first], field) + Descend(second, field);
    hide Descend, Level;
    OneStep(elements, [field]);
    OneStep([Array(elements)], ["*", field]);
    assert ["*", field][1..] == [field];
  }

  lemma LevelOfOne(item: Json, part: string)
    ensures Level([item], part) == Descend(item, part)
  {
    assert [item][..0] == [];
  }

  lemma OneStep(current: seq<Json>, parts: seq<string>)
    requires parts != []
    ensures ExtractLevels(current, parts) == ExtractLevels(Level(current, parts[0]), parts[1..])
    ensures |parts| == 1 ==> ExtractLevels(current, parts) == Level(current, parts[0])
  {}

  // ---- lists of objects ----

  /** The values of a field in those items that are objects with it, in order. */
  function FieldValues(items: seq<Json>, field: string): (values: seq<Json>) {
    if items == [] then []
    else
      var last := items[|items| - 1];
      FieldValues(items[..|items| - 1], field) + (if last.Object? && field in last.fields then [last.fields[field]] else [])
  }

  /** The usual paths: over an array, or over the array in a field of an object. */
  lemma FieldsOfItems(items: seq<Json>, field: string, list: string, whole: map<string, Json>)
    requires field != "*" && list != "*" && list in whole && whole[list] == Array(items)
    ensures ExtractLevels([Array(items)], ["*", field]) == FieldValues(items, field)
    ensures ExtractLevels([Object(whole)], [list, "*", field]) == FieldValues(items, field)
    ensures ExtractLevels([Object(whole)], ["*", field]) == [] && ExtractLevels([Array(items)], [list, "*", field]) == []
  {
    LevelOfOne(Array(items), "*");
    LevelOfOne(Object(whole), list);
    LevelOfOne(Object(whole), "*");
    LevelOfOne(Array(items), list);
    FieldsOfLevel(items, field);
    hide Level, Descend;
    assert ["*", field][1..] == [field] && [list, "*", field][1..] == ["*", field];
    assert ExtractLevels([], ["*", field]) == [] by { NothingFromNothing(["*", field]); }
    assert ExtractLevels([], [field]) == [] by { NothingFromNothing([field]); }
    OneStep(items, [field]);
    OneStep([Array(items)], ["*", field]);
    OneStep([Object(whole)], ["*", field]);
    OneStep([Object(whole)], [list, "*", field]);
    OneStep([Array(items)], [list, "*", field]);
    ThreeParts(list, field, items, whole);
  }

  lemma ThreeParts(list: string, field: string, items: seq<Json>, whole: map<string, Json>)
    requires field != "*" && list != "*" && list in whole && whole[list] == Array(items)
    ensures Level([Object(whole)], list) == [Array(items)] && Level([Array(items)], list) == []
    ensures Level([Object(whole)], "*") == [] && Level([Array(items)], "*") == items
  {
    LevelOfOne(Array(items), "*");
    LevelOfOne(Object(whole), list);
    LevelOfOne(Object(whole), "*");
    LevelOfOne(Array(items), list);
  }

  lemma {:induction false} NothingFromNothing(parts: seq<string>)
    ensures ExtractLevels([], parts) == []
    decreases |parts|
  {
    if parts != [] { NothingFromNothing(parts[1..]); }
  }

  lemma {:induction false} FieldsOfLevel(items: seq<Json>, field: string)
    requires field != "*"
    ensures Level(items, field) == FieldValues(items, field)
  {
    if items != [] { FieldsOfLevel(items[..|items| - 1], field); }
  }

  /** A row needs an address and a port with text: numbers count as theirs, null as none. Its protocol is the element's
      own if that has text, and otherwise the source's. */
  lemma RowSays(ip: string, port: string, own: string, src: Source, printed: Json -> string)
    ensures forall a, b, c :: a in {String(ip), Number(ip)} && b in {String(port), Number(port)} && c in {String(own), Number(own)} ==>
      var row := Row(a, b, Some(c), src, printed);
      && (row.None? <==> ip == "" || port == "")
      && (row.Some? ==> row.value.ip == ip && row.value.port == port && row.value.source == src.name
                        && row.value.protocol == if own == "" then src.protocol else own)
    ensures forall a, b :: a == Null || b == Null ==> Row(a, b, None, src, printed).None?
    ensures ip != "" && port != "" ==>
      var row := Row(String(ip), String(port), None, src, printed);
      row.Some? && row.value.ip == ip && row.value.port == port && row.value.protocol == src.protocol
  {}
}
