/** Proxy lists in plain text, one endpoint a line, and the round trip with the printed form. */
module TextSource {
  import opened Proxies

  datatype Source = Source(name: string, protocol: string)

  /** What a list says of one endpoint; everything else has its zero value. */
  function Listed(ip: string, port: string, protocol: string, source: string): (r: Proxy) {
    Proxy(0, ip, port, protocol, "", source, 0, false, ZERO_TIME, ZERO_TIME, 0, Some(ZERO_TIME))
  }

  // ---- strings ----

  predicate IsSpace(c: char) {
    c in {'\t', '\n', '\U{000B}', '\U{000C}', '\r', ' ', '\U{0085}', '\U{00A0}', '\U{1680}',
          '\U{2028}', '\U{2029}', '\U{202F}', '\U{205F}', '\U{3000}'}
    || '\U{2000}' <= c <= '\U{200A}'
  }

  function TrimLeft(s: string): (r: string) {
    if s != [] && IsSpace(s[0]) then TrimLeft(s[1..]) else s
  }

  function TrimRight(s: string): (r: string) {
    if s != [] && IsSpace(s[|s| - 1]) then TrimRight(s[..|s| - 1]) else s
  }

  function TrimSpace(s: string): (r: string) {
    TrimRight(TrimLeft(s))
  }

  function IndexOf(s: string, c: char): (i: Option<nat>)
    ensures i.None? <==> c !in s
    ensures i.Some? ==> i.value < |s| && s[i.value] == c && c !in s[..i.value]
  {
    if s == [] then None
    else if s[0] == c then Some(0)
    else
      var rest := IndexOf(s[1..], c);
      if rest.None? then None
      else
        assert s[..rest.value + 1] == [s[0]] + s[1..][..rest.value];
        Some(rest.value + 1)
  }

  function LastIndexOf(s: string, c: char): (i: Option<nat>)
    ensures i.None? <==> c !in s
    ensures i.Some? ==> i.value < |s| && s[i.value] == c && c !in s[i.value + 1..]
  {
    if s == [] then None
    else if s[|s| - 1] == c then Some(|s| - 1)
    else LastIndexOf(s[..|s| - 1], c)
  }

  /** Where the first "://" begins. */
  function SchemeEnd(s: string): (i: Option<nat>)
    ensures i.Some? ==> i.value + 3 <= |s| && s[i.value..i.value + 3] == "://"
  {
    if |s| < 3 then None
    else if s[..3] == "://" then Some(0)
    else
      var rest := SchemeEnd(s[1..]);
      if rest.None? then None else Some(rest.value + 1)
  }

  function LowerChar(c: char): (r: char) {
    if 'A' <= c <= 'Z' then c - 'A' + 'a' else c
  }

  function ToLower(s: string): (r: string)
    ensures |r| == |s| && forall i :: 0 <= i < |s| ==> r[i] == LowerChar(s[i])
  {
    if s == [] then [] else [LowerChar(s[0])] + ToLower(s[1..])
  }

  /** The pieces between separators: one more than there are separators. */
  function Split(text: string, separator: char): (pieces: seq<string>)
    ensures pieces != []
    decreases |text|
  {
    var end := IndexOf(text, separator);
    if end.None? then [text] else [text[..end.value]] + Split(text[end.value + 1..], separator)
  }

  function Lines(text: string): (lines: seq<string>)
    ensures lines != []
  {
    Split(text, '\n')
  }

  function Join(lines: seq<string>): (r: string) {
    if lines == [] then []
    else if |lines| == 1 then lines[0]
    else lines[0] + "\n" + Join(lines[1..])
  }

  // ---- parsing ----

  datatype HostPort = HostPort(host: string, port: string)

  /** The host and port of an address; a bracketed host may contain colons. */
  function SplitHostPort(address: string): (r: Option<HostPort>) {
    var colon := LastIndexOf(address, ':');
    if colon.None? then None
    else if address[0] == '[' then
      var close := IndexOf(address, ']');
      if close.None? || close.value + 1 != colon.value then None
      else if '[' in address[1..] || ']' in address[close.value + 1..] then None
      else Some(HostPort(address[1..close.value], address[colon.value + 1..]))
    else if ':' in address[..colon.value] || '[' in address || ']' in address then None
    else Some(HostPort(address[..colon.value], address[colon.value + 1..]))
  }

  function CutAtSpace(line: string): (r: string) {
    var space := IndexOf(line, ' ');
    if space.None? then line else line[..space.value]
  }

  /** The endpoint a line lists, if it does. */
  function ParseLine(line: string, src: Source): (r: Option<Proxy>) {
    var trimmed := TrimSpace(line);
    if trimmed == "" then None
    else ParseEndpoint(CutAtSpace(trimmed), src)
  }

  function ParseEndpoint(text: string, src: Source): (r: Option<Proxy>) {
    var end := SchemeEnd(text);
    var protocol := if end.Some? then ToLower(text[..end.value]) else src.protocol;
    var parts := SplitHostPort(if end.Some? then text[end.value + 3..] else text);
    if parts.None? then None else Some(Listed(parts.value.host, parts.value.port, protocol, src.name))
  }

  function ParseLines(lines: seq<string>, src: Source): (r: seq<Proxy>) {
    if lines == [] then []
    else
      var last := ParseLine(lines[|lines| - 1], src);
      ParseLines(lines[..|lines| - 1], src) + (if last.Some? then [last.value] else [])
  }

  method ParseTextResponse(body: string, src: Source) returns (proxies: seq<Proxy>)
    ensures proxies == ParseLines(Lines(body), src)
  {
    hide SplitHostPort, SchemeEnd, TrimSpace, CutAtSpace, IndexOf;
    proxies := [];
    var lines := Lines(body);
    for i := 0 to |lines|
      invariant proxies == ParseLines(lines[..i], src)
    {
      assert lines[..i + 1][..i] == lines[..i];
      var line := TrimSpace(lines[i]);
      if line == "" {
        continue;
      }
      line := CutAtSpace(line);
      var protocol := src.protocol;
      var end := SchemeEnd(line);
      if end.Some? {
        protocol := ToLower(line[..end.value]);
        line := line[end.value + 3..];
      }
      var parts := SplitHostPort(line);
      if parts.None? {
        continue;
      }
      proxies := proxies + [Listed(parts.value.host, parts.value.port, protocol, src.name)];
    }
    assert lines[..|lines|] == lines;
  }

  // ---- round trip ----

  ghost predicate NoneOf(s: string, chars: set<char>) {
    forall c :: c in s ==> c !in chars && !IsSpace(c)
  }

  /** Endpoints a list can carry: a lower-case protocol without colons, an address and a port without colons
      or brackets, and no white space anywhere. */
  ghost predicate Listable(p: Proxy) {
    && p.protocol != "" && ToLower(p.protocol) == p.protocol && NoneOf(p.protocol, {':'})
    && NoneOf(p.ip, {':', '[', ']'}) && NoneOf(p.port, {':', '[', ']'})
  }

  /** Nothing, or a space and any text without a line feed. */
  predicate IsExtra(extra: string) {
    extra == "" || (extra[0] == ' ' && '\n' !in extra)
  }

  lemma {:induction false} TrimRightKeeps(u: string, e: string) returns (k: nat)
    requires u != "" && !IsSpace(u[|u| - 1])
    ensures k <= |e| && TrimRight(u + e) == u + e[..k]
  {
    hide IsSpace;
    if e == "" {
      assert u + e == u;
      k := 0;
    } else if IsSpace(e[|e| - 1]) {
      assert (u + e)[..|u + e| - 1] == u + e[..|e| - 1];
      k := TrimRightKeeps(u, e[..|e| - 1]);
      assert e[..|e| - 1][..k] == e[..k];
    } else {
      k := |e|;
      assert e[..k] == e;
    }
  }

  /** In ASCII white space is the blank, the tab and the line and page breaks. */
  lemma AsciiSpaces(c: char)
    requires c as int < 128
    ensures IsSpace(c) <==> c == ' ' || 9 <= c as int <= 13
  {}

  /** Trimming takes off all white space at both ends, and nothing else. */
  lemma {:induction false} TrimSpaceRecovers(left: string, u: string, right: string)
    requires (forall c :: c in left ==> IsSpace(c)) && (forall c :: c in right ==> IsSpace(c))
    requires u != "" ==> !IsSpace(u[0]) && !IsSpace(u[|u| - 1])
    ensures TrimSpace(left + u + right) == u
    decreases |left| + |right|
  {
    hide IsSpace;
    if left != "" {
      assert left[0] in left && (left + u + right)[1..] == left[1..] + u + right;
      TrimSpaceRecovers(left[1..], u, right);
    } else if u == "" {
      assert left + u + right == right;
      if right != "" {
        assert right[0] in right && right[1..] == right[1..] + u + "";
        TrimSpaceRecovers(right[1..], u, "");
      }
    } else {
      assert left + u + right == u + right;
      RightIsTrimmed(u, right);
    }
  }

  lemma {:induction false} RightIsTrimmed(u: string, right: string)
    requires (forall c :: c in right ==> IsSpace(c)) && u != "" && !IsSpace(u[|u| - 1])
    ensures TrimRight(u + right) == u
  {
    hide IsSpace;
    if right == "" {
      assert u + right == u;
    } else {
      assert right[|right| - 1] in right && (u + right)[..|u + right| - 1] == u + right[..|right| - 1];
      RightIsTrimmed(u, right[..|right| - 1]);
    }
  }

  lemma {:induction false} FirstIndex(s: string, c: char, i: nat)
    requires i < |s| && s[i] == c && c !in s[..i]
    ensures IndexOf(s, c) == Some(i)
  {
    if i > 0 {
      assert s[..i][0] == s[0];
      assert s[1..][..i - 1] == s[..i][1..];
      FirstIndex(s[1..], c, i - 1);
    }
  }

  /** Trimming and cutting at the first space recover the text before the extra. */
  lemma CutRecovers(u: string, e: string)
    requires u != "" && NoneOf(u, {}) && IsExtra(e)
    ensures TrimSpace(u + e) != "" && CutAtSpace(TrimSpace(u + e)) == u
  {
    hide TrimRight, IndexOf;
    assert u[0] in u && u[|u| - 1] in u;
    assert (u + e)[0] == u[0];
    var k := TrimRightKeeps(u, e);
    var t := u + e[..k];
    assert ' ' !in u;
    if k == 0 {
      assert t == u;
    } else {
      assert t[|u|] == ' ' && t[..|u|] == u;
      FirstIndex(t, ' ', |u|);
    }
  }

  lemma {:induction false} SchemeEndsAt(s: string, i: nat)
    requires i + 3 <= |s| && s[i..i + 3] == "://" && ':' !in s[..i]
    ensures SchemeEnd(s) == Some(i)
  {
    if i > 0 {
      assert s[0] == s[..i][0];
      assert s[1..][i - 1..i + 2] == s[i..i + 3];
      assert s[1..][..i - 1] == s[..i][1..];
      assert s[..3][0] == s[0];
      SchemeEndsAt(s[1..], i - 1);
    } else {
      assert s[..3] == s[0..3];
    }
  }

  lemma SplitRecovers(ip: string, port: string)
    requires NoneOf(ip, {':', '[', ']'}) && NoneOf(port, {':', '[', ']'})
    ensures SplitHostPort(ip + ":" + port) == Some(HostPort(ip, port))
  {
    hide LastIndexOf, IsSpace, IndexOf;
    var a := ip + ":" + port;
    var i := LastIndexOf(a, ':').value;
    assert a[|ip|] == ':';
    assert a[..|ip|] == ip && a[|ip| + 1..] == port;
    assert i == |ip|;
    assert a[..i] == ip && a[i + 1..] == port;
    forall c | c in a ensures c == ':' || c in ip || c in port {}
    assert a[0] in a;
  }

  /** A bracketed host may hold colons. */
  lemma BracketsAreTakenOff(ip: string, port: string)
    requires NoneOf(ip, {'[', ']'}) && NoneOf(port, {':', '[', ']'})
    ensures SplitHostPort("[" + ip + "]:" + port) == Some(HostPort(ip, port))
  {
    hide LastIndexOf, IsSpace, IndexOf;
    var n, a := |ip|, "[" + ip + "]:" + port;
    var i, close := LastIndexOf(a, ':').value, IndexOf(a, ']').value;
    assert a[n + 1] == ']' && a[n + 2] == ':' && a[n + 3..] == port && a[1..n + 1] == ip && a[..n + 1] == "[" + ip;
    assert close == n + 1;
    assert i == n + 2;
    forall c | c in a[1..] ensures c != '[' {
      assert c in ip || c == ']' || c == ':' || c in port;
    }
  }

  /** Without brackets a second colon, or none, is an error, so such a line lists nothing. */
  lemma ColonsAreCounted(host: string, port: string)
    requires ':' !in port
    ensures SplitHostPort(port).None?
    ensures ':' in host && '[' !in host ==> SplitHostPort(host + ":" + port).None?
  {
    hide IndexOf, LastIndexOf;
    var a := host + ":" + port;
    if ':' in host && '[' !in host {
      var i := LastIndexOf(a, ':').value;
      assert a[|host|] == ':';
      assert a[|host| + 1..] == port;
      assert i == |host|;
      assert a[..i] == host && a[0] == host[0] && host[0] in host;
    }
  }

  /** Capital letters become the small ones, everything else stays. */
  lemma LowerCaseIs(s: string)
    ensures forall i :: 0 <= i < |s| ==>
      ToLower(s)[i] as int == if 'A' <= s[i] <= 'Z' then s[i] as int + 32 else s[i] as int
  {}

  lemma {:induction false} NoSchemeIn(s: string)
    requires '/' !in s
    ensures SchemeEnd(s).None?
  {
    if |s| >= 3 {
      assert s[..3] != "://" by { assert s[1] in s && s[..3][1] == s[1] && "://"[1] == '/'; }
      assert forall c :: c in s[1..] ==> c in s;
      NoSchemeIn(s[1..]);
    }
  }

  /** A line of just an address and a port, whatever follows a space, lists them under the source's protocol. */
  lemma PlainLineRecovers(ip: string, port: string, extra: string, src: Source)
    requires NoneOf(ip, {':', '[', ']', '/'}) && NoneOf(port, {':', '[', ']', '/'}) && IsExtra(extra)
    ensures var p := ParseLine(ip + ":" + port + extra, src);
      && p.Some? && p.value.ip == ip && p.value.port == port && p.value.protocol == src.protocol && p.value.source == src.name
      && p.value.id == 0 && p.value.lastVerify == 0
  {
    var u := ip + ":" + port;
    forall c | c in u ensures !IsSpace(c) && c != '/' {
      assert c in ip || c == ':' || c in port;
    }
    assert NoneOf(ip, {':', '[', ']'}) && NoneOf(port, {':', '[', ']'});
    hide IsSpace, TrimSpace, CutAtSpace, SplitHostPort, SchemeEnd, NoneOf, IsExtra;
    CutRecovers(u, extra);
    NoSchemeIn(u);
    SplitRecovers(ip, port);
  }

  /** A line with a scheme, spelled in any case, lists its endpoint under the scheme in lower case. */
  lemma SchemeIsLowered(scheme: string, ip: string, port: string, extra: string, src: Source)
    requires scheme != "" && NoneOf(scheme, {':'}) && IsExtra(extra)
    requires NoneOf(ip, {':', '[', ']'}) && NoneOf(port, {':', '[', ']'})
    ensures ParseLine(scheme + ("://" + (ip + ":" + port)) + extra, src) == Some(Listed(ip, port, ToLower(scheme), src.name))
  {
    var rest := ip + ":" + port;
    var u, n := scheme + ("://" + rest), |scheme|;
    forall c | c in u ensures !IsSpace(c) {
      assert c in scheme || c in "://" || c in ip || c == ':' || c in port;
    }
    assert u[n..n + 3] == "://" && u[..n] == scheme && u[n + 3..] == rest;
    assert ':' !in scheme && NoneOf(u, {});
    hide IsSpace, TrimSpace, CutAtSpace, SplitHostPort, SchemeEnd, ToLower, NoneOf, IsExtra;
    CutRecovers(u, extra);
    SchemeEndsAt(u, n);
    SplitRecovers(ip, port);
  }

  lemma UriHasNoSpace(p: Proxy)
    requires Listable(p)
    ensures URI(p) != "" && NoneOf(URI(p), {}) && '\n' !in URI(p)
  {
    forall c | c in URI(p) ensures !IsSpace(c) {
      assert c in p.protocol || c in "://" || c in p.ip || c == ':' || c in p.port;
    }
  }

  /** A printed endpoint parses back to its three parts. */
  lemma LineRecovers(p: Proxy, extra: string, src: Source)
    requires Listable(p) && IsExtra(extra)
    ensures ParseLine(URI(p) + extra, src) == Some(Listed(p.ip, p.port, p.protocol, src.name))
  {
    assert URI(p) == p.protocol + ("://" + (p.ip + ":" + p.port));
    hide ParseLine, URI, NoneOf;
    SchemeIsLowered(p.protocol, p.ip, p.port, extra, src);
  }

  lemma {:induction false} LinesOfJoined(lines: seq<string>)
    requires lines != [] && forall l :: l in lines ==> '\n' !in l
    ensures Lines(Join(lines)) == lines
  {
    hide IndexOf;
    var text := Join(lines);
    if |lines| == 1 {
    } else {
      assert text == lines[0] + "\n" + Join(lines[1..]);
      assert text[..|lines[0]|] == lines[0] && text[|lines[0]| + 1..] == Join(lines[1..]);
      FirstIndex(text, '\n', |lines[0]|);
      LinesOfJoined(lines[1..]);
    }
  }

  function ListingLines(ps: seq<Proxy>, extras: seq<string>): (lines: seq<string>)
    requires |ps| == |extras|
    ensures |lines| == |ps|
  {
    if ps == [] then [] else ListingLines(ps[..|ps| - 1], extras[..|ps| - 1]) + [URI(ps[|ps| - 1]) + extras[|ps| - 1]]
  }

  function AllListed(ps: seq<Proxy>, src: Source): (r: seq<Proxy>) {
    if ps == [] then []
    else AllListed(ps[..|ps| - 1], src) + [Listed(ps[|ps| - 1].ip, ps[|ps| - 1].port, ps[|ps| - 1].protocol, src.name)]
  }

  lemma {:induction false} ListingParses(ps: seq<Proxy>, extras: seq<string>, src: Source)
    requires |ps| == |extras| && (forall p :: p in ps ==> Listable(p)) && (forall e :: e in extras ==> IsExtra(e))
    ensures ParseLines(ListingLines(ps, extras), src) == AllListed(ps, src)
    ensures forall l :: l in ListingLines(ps, extras) ==> '\n' !in l
  {
    hide ParseLine, Listable, IsExtra, URI;
    if ps != [] {
      var n := |ps| - 1;
      ListingParses(ps[..n], extras[..n], src);
      assert ListingLines(ps, extras)[..n] == ListingLines(ps[..n], extras[..n]);
      LineRecovers(ps[n], extras[n], src);
      LineHasNoFeed(ps[n], extras[n]);
    }
  }

  lemma LineHasNoFeed(p: Proxy, extra: string)
    requires Listable(p) && IsExtra(extra)
    ensures '\n' !in URI(p) + extra
  {
    hide Listable, URI;
    UriHasNoSpace(p);
  }

  /** Parsing a printed list gives back every endpoint in order, whatever follows a space on its line, and
      whatever protocol the source would have stood for. */
  lemma ListingRoundTrip(ps: seq<Proxy>, extras: seq<string>, src: Source)
    requires |ps| == |extras| && (forall p :: p in ps ==> Listable(p)) && (forall e :: e in extras ==> IsExtra(e))
    ensures ParseLines(Lines(Join(ListingLines(ps, extras))), src) == AllListed(ps, src)
  {
    hide ParseLine, Listable, IsExtra, URI, Lines;
    ListingParses(ps, extras, src);
    if ps == [] {
      EmptyTextLists(src);
    } else {
      LinesOfJoined(ListingLines(ps, extras));
    }
  }

  lemma EmptyTextLists(src: Source)
    ensures ParseLines(Lines(""), src) == []
  {
    assert Lines("") == [""];
    assert ParseLines([""], src) == ParseLines([], src) + [];
  }
}
